/** The webhook certificate options and the name rules that publication relies on. */
module WebhookOptions {
  import opened Prelude
  import opened Text

  datatype Options = Options(
    secretName: string,
    webhookName: string,
    dnsName: string,
    certDir: string,
    certName: string,
    keyName: string)

  /** The command-line flags a partial configuration is told to set. */
  datatype Flag = WebhookFlag | DNSNameFlag | CertPathFlag | CertAndKeyNameFlags

  datatype ConfigError =
    | MissingFlags(flags: seq<Flag>)
    | NotPlainFileName
    | SameFileName
    | NotBareDNSName

  predicate Enabled(o: Options) {
    TrimSpace(o.secretName) != ""
  }

  function StripTrailingSlashes(path: string): (r: string)
    ensures r != "" ==> r[|r| - 1] != '/'
  {
    if path != "" && path[|path| - 1] == '/' then StripTrailingSlashes(path[..|path| - 1]) else path
  }

  function AfterLastSlash(path: string): (r: string)
    ensures '/' !in r
  {
    if path == "" || path[|path| - 1] == '/' then "" else AfterLastSlash(path[..|path| - 1]) + [path[|path| - 1]]
  }

  /** filepath.Base on a Unix host. */
  function Base(path: string): string {
    if path == "" then "."
    else
      var last := AfterLastSlash(StripTrailingSlashes(path));
      if last == "" then "/" else last
  }

  lemma {:induction false} AfterLastSlashWithoutSlash(path: string)
    requires '/' !in path
    ensures AfterLastSlash(path) == path
  {
    if path != "" {
      AfterLastSlashWithoutSlash(path[..|path| - 1]);
      assert path == path[..|path| - 1] + [path[|path| - 1]];
    }
  }

  /** filepath.Base leaves alone the names without a slash, and the root "/". */
  lemma BaseFixpoints(name: string)
    ensures Base(name) == name <==> name == "/" || (name != "" && '/' !in name)
  {
    if name != "" && '/' !in name {
      AfterLastSlashWithoutSlash(name);
    }
    if name == "/" {
      assert name[..0] == "";
      assert StripTrailingSlashes(name) == "";
    }
  }

  /** What the name check lets through. The root directory's own name is among it. */
  predicate PlainFileName(name: string) {
    name == "/" || (name != "" && name != "." && '/' !in name && !(".." <= name))
  }

  predicate ValidOptions(o: Options) {
    && !Blank(o.webhookName)
    && !Blank(o.dnsName)
    && !Blank(o.certDir)
    && !Blank(o.certName)
    && !Blank(o.keyName)
    && PlainFileName(o.certName)
    && PlainFileName(o.keyName)
    && o.certName != o.keyName
    && '/' !in o.dnsName
    && ':' !in o.dnsName
  }

  /** The flags that must not be blank once rotation is on. */
  method CollectMissing(o: Options) returns (missing: seq<Flag>)
    ensures WebhookFlag in missing <==> Blank(o.webhookName)
    ensures DNSNameFlag in missing <==> Blank(o.dnsName)
    ensures CertPathFlag in missing <==> Blank(o.certDir)
    ensures CertAndKeyNameFlags in missing <==> Blank(o.certName) || Blank(o.keyName)
    ensures forall i, j :: 0 <= i < j < |missing| ==> missing[i] != missing[j]
  {
    hide TrimSpace, Blank;
    missing := [];
    TrimSpaceBlank(o.webhookName);
    if TrimSpace(o.webhookName) == "" {
      missing := missing + [WebhookFlag];
    }
    TrimSpaceBlank(o.dnsName);
    if TrimSpace(o.dnsName) == "" {
      missing := missing + [DNSNameFlag];
    }
    TrimSpaceBlank(o.certDir);
    if TrimSpace(o.certDir) == "" {
      missing := missing + [CertPathFlag];
    }
    TrimSpaceBlank(o.certName);
    TrimSpaceBlank(o.keyName);
    if TrimSpace(o.certName) == "" || TrimSpace(o.keyName) == "" {
      missing := missing + [CertAndKeyNameFlags];
    }
  }

  /** validateWebhookCertRotationOptions: accepts exactly the disabled and the well-formed options. */
  method ValidateOptions(o: Options) returns (err: Option<ConfigError>)
    ensures err.None? <==> !Enabled(o) || ValidOptions(o)
  {
    if !Enabled(o) {
      return None;
    }
    var missing := CollectMissing(o);
    if |missing| > 0 {
      var flag := missing[0];
      assert flag == WebhookFlag || flag == DNSNameFlag || flag == CertPathFlag || flag == CertAndKeyNameFlags;
      return Some(MissingFlags(missing));
    }
    var names := [o.certName, o.keyName];
    for i := 0 to 2
      invariant forall j :: 0 <= j < i ==> PlainFileName(names[j])
    {
      BaseFixpoints(names[i]);
      if Base(names[i]) != names[i] || names[i] == "." || ".." <= names[i] {
        assert !PlainFileName(names[i]);
        return Some(NotPlainFileName);
      }
    }
    assert PlainFileName(names[0]) && PlainFileName(names[1]);
    if o.certName == o.keyName {
      return Some(SameFileName);
    }
    if '/' in o.dnsName || ':' in o.dnsName {
      return Some(NotBareDNSName);
    }
    return None;
  }
}
