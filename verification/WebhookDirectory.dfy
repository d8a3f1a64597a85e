/**
 The certificate directory and the publication protocol of publishWebhookCertificate.

 Every state the directory passes through is kept in `history`, down to single bytes of a
 file being written and single files of a tree being removed. A process crash leaves the
 directory in one of those states, so a property of the whole history is a property of
 every crash.
 */
module WebhookDirectory {
  import opened Prelude
  import opened WebhookOptions

  datatype Entry =
    | File(data: Bytes)
    | Link(target: string)
    | Generation(files: map<string, Bytes>)

  type Directory = map<string, Entry>

  /** The data items of one Secret. */
  type SecretData = map<string, Bytes>

  const DATA := "..data"
  const NEXT := "..data-next"
  const GENERATION_PREFIX := "..cert-"

  predicate IsGenerationName(name: string) {
    GENERATION_PREFIX <= name
  }

  function DataPath(name: string): string {
    DATA + "/" + name
  }

  /** The names the protocol uses never collide. */
  predicate NamesApart(o: Options) {
    && !IsGenerationName(DATA) && !IsGenerationName(NEXT) && DATA != NEXT
    && !IsGenerationName(o.certName) && !IsGenerationName(o.keyName)
    && o.certName !in {DATA, NEXT} && o.keyName !in {DATA, NEXT}
    && o.certName != o.keyName
  }

  /**
   The validator's rules (no ".." prefix, distinct names) are what keeps the names apart. A public file named
   "..data" would be replaced by the rename itself, and one named "..data-next" removed before it.
   */
  lemma ValidNamesApart(o: Options)
    requires ValidOptions(o)
    ensures NamesApart(o)
  {
    assert DATA[2] == 'd' && NEXT[2] == 'd' && GENERATION_PREFIX[2] == 'c';
    assert |DATA| != |NEXT|;
    forall name | PlainFileName(name)
      ensures !IsGenerationName(name) && name != DATA && name != NEXT
    {
      assert ".." <= GENERATION_PREFIX && ".." <= DATA && ".." <= NEXT;
    }
  }

  function ActiveName(d: Directory): Option<string> {
    if DATA in d && d[DATA].Link? then Some(d[DATA].target) else None
  }

  /** What readlink of "..data" gives, or nothing when there is no such link. */
  function Previous(d: Directory): string {
    if ActiveName(d).Some? then ActiveName(d).value else ""
  }

  /** The files a reader reaches through "..data". */
  function ActiveFiles(d: Directory): Option<map<string, Bytes>> {
    var name := ActiveName(d);
    if name.Some? && name.value in d && d[name.value].Generation? then Some(d[name.value].files) else None
  }

  function Generations(d: Directory): set<string> {
    set name | name in d && IsGenerationName(name) && d[name].Generation?
  }

  /** The certificate and key of one Secret, complete. */
  function PairOf(data: SecretData, o: Options): map<string, Bytes> {
    map[o.certName := Lookup(data, o.certName), o.keyName := Lookup(data, o.keyName)]
  }

  predicate HoldsOneOf(files: map<string, Bytes>, offered: set<SecretData>, o: Options) {
    exists data :: data in offered && files == PairOf(data, o)
  }

  /** "..data" is absent, or names an existing generation with a complete pair from one Secret. */
  predicate ActiveIsComplete(d: Directory, o: Options, offered: set<SecretData>) {
    DATA in d ==>
      && d[DATA].Link?
      && d[DATA].target in Generations(d) && '/' !in d[DATA].target
      && HoldsOneOf(d[d[DATA].target].files, offered, o)
  }

  predicate PublicNamesAreLinks(d: Directory, o: Options) {
    && (o.certName in d ==> d[o.certName] == Link(DataPath(o.certName)))
    && (o.keyName in d ==> d[o.keyName] == Link(DataPath(o.keyName)))
  }

  /** What holds of the directory at every instant. */
  predicate SafeDirectory(d: Directory, o: Options, offered: set<SecretData>) {
    && ActiveIsComplete(d, o, offered)
    && PublicNamesAreLinks(d, o)
    && (NEXT in d ==> d[NEXT].Link?)
    && |Generations(d)| <= 2
  }

  /** The one name the validator accepts although no file can be written under it. */
  predicate Unwritable(o: Options) {
    o.certName == "/" || o.keyName == "/"
  }

  /** Where a public name leads: the generation it resolves into, and the bytes read there. */
  datatype Located = Located(generation: string, data: Bytes)

  function Open(d: Directory, name: string): Option<Located> {
    if name in d && d[name] == Link(DataPath(name)) && DATA in d && d[DATA].Link? then
      var target := d[DATA].target;
      if target in d && d[target].Generation? && name in d[target].files
      then Some(Located(target, d[target].files[name]))
      else None
    else None
  }

  /** Both public names lead into the generation `g`, to the Secret's certificate and key. */
  predicate Opens(d: Directory, g: string, data: SecretData, o: Options) {
    && Open(d, o.certName) == Some(Located(g, Lookup(data, o.certName)))
    && Open(d, o.keyName) == Some(Located(g, Lookup(data, o.keyName)))
  }

  /** The directory that a successful publication leaves: one generation, and it is the Secret's. */
  predicate Published(d: Directory, g: string, data: SecretData, o: Options, offered: set<SecretData>) {
    && SafeDirectory(d, o, offered) && |Generations(d)| == 1
    && ActiveFiles(d) == Some(PairOf(data, o)) && Opens(d, g, data, o)
  }

  /** What the rename makes of a directory in which "..data-next" names `g`. */
  function AfterSwap(d: Directory, g: string): Directory {
    (d - {NEXT})[DATA := Link(g)]
  }

  /** The two public names never resolve into different generations, and the pair they give is one Secret's. */
  lemma PublicNamesAgree(d: Directory, o: Options, offered: set<SecretData>)
    requires SafeDirectory(d, o, offered)
    requires Open(d, o.certName).Some? && Open(d, o.keyName).Some?
    ensures Open(d, o.certName).value.generation == Open(d, o.keyName).value.generation
    ensures exists data ::
              && data in offered
              && Open(d, o.certName).value.data == PairOf(data, o)[o.certName]
              && Open(d, o.keyName).value.data == PairOf(data, o)[o.keyName]
  {
    var target := d[DATA].target;
    assert HoldsOneOf(d[target].files, offered, o);
  }

  /** Once both links are laid, both names lead to the active pair. */
  lemma ActivePairOpens(d: Directory, g: string, data: SecretData, o: Options, offered: set<SecretData>)
    requires SafeDirectory(d, o, offered)
    requires o.certName in d && o.keyName in d && o.certName != o.keyName
    requires ActiveName(d) == Some(g) && ActiveFiles(d) == Some(PairOf(data, o))
    ensures Opens(d, g, data, o)
  {
    assert d[g].files == PairOf(data, o);
  }

  lemma ActiveIsAGeneration(d: Directory, o: Options, offered: set<SecretData>)
    requires SafeDirectory(d, o, offered)
    ensures ActiveName(d).Some? ==> ActiveName(d).value in Generations(d) && '/' !in ActiveName(d).value
    ensures '/' !in Previous(d) && (IsGenerationName(Previous(d)) ==> Previous(d) in Generations(d))
  {
    assert GENERATION_PREFIX != "";
  }

  /** `d` is `before` with at most the generation `g` changed or removed. */
  predicate ChangesOnly(before: Directory, d: Directory, g: string) {
    && d - {g} == before - {g}
    && (g in d ==> d[g].Generation?)
  }

  /** Further work on the same generation changes nothing else either. */
  lemma StillChangesOnly(before: Directory, d: Directory, g: string, files: map<string, Bytes>)
    requires ChangesOnly(before, d, g)
    ensures ChangesOnly(before, d[g := Generation(files)], g)
    ensures ChangesOnly(before, d - {g}, g) && d - {g} == before - {g}
  {
    assert d[g := Generation(files)] - {g} == d - {g};
    assert d - {g} - {g} == d - {g};
  }

  lemma SameElsewhere(before: Directory, d: Directory, g: string)
    requires d - {g} == before - {g}
    ensures forall n :: n != g ==> (n in d <==> n in before)
    ensures forall n :: n != g && n in d ==> d[n] == before[n]
  {
    forall n | n != g
      ensures n in d <==> n in before
      ensures n in d ==> d[n] == before[n]
    {
      assert n in d <==> n in d - {g};
      assert n in before <==> n in before - {g};
      if n in d {
        assert (d - {g})[n] == d[n];
        assert (before - {g})[n] == before[n];
      }
    }
  }

  lemma SubsetSize<T>(a: set<T>, b: set<T>)
    requires a <= b
    ensures |a| <= |b|
  {
    assert b == a + (b - a);
  }

  /** Work on an inactive generation is invisible. */
  lemma InactiveWorkIsSafe(before: Directory, d: Directory, g: string, o: Options, offered: set<SecretData>)
    requires NamesApart(o)
    requires SafeDirectory(before, o, offered)
    requires g in Generations(before) && ActiveName(before) != Some(g)
    requires ChangesOnly(before, d, g)
    ensures SafeDirectory(d, o, offered)
    ensures ActiveName(d) == ActiveName(before) && ActiveFiles(d) == ActiveFiles(before)
    ensures Generations(d) == if g in d then Generations(before) else Generations(before) - {g}
  {
    SameElsewhere(before, d, g);
    assert Generations(d) == if g in d then Generations(before) else Generations(before) - {g};
    SubsetSize(Generations(d), Generations(before));
  }

  /** So is a new entry that is neither a generation nor "..data". */
  lemma LinkingIsSafe(before: Directory, name: string, link: Entry, o: Options, offered: set<SecretData>)
    requires NamesApart(o)
    requires SafeDirectory(before, o, offered)
    requires name !in before && name != DATA && link.Link?
    requires name in {o.certName, o.keyName} ==> link == Link(DataPath(name))
    ensures SafeDirectory(before[name := link], o, offered)
    ensures ActiveName(before[name := link]) == ActiveName(before)
    ensures ActiveFiles(before[name := link]) == ActiveFiles(before)
    ensures Generations(before[name := link]) == Generations(before)
  {
    var after := before[name := link];
    assert Generations(after) == Generations(before);
    assert DATA in after <==> DATA in before;
  }

  /** A fresh, empty generation beside at most the active one. */
  lemma NewGenerationIsSafe(before: Directory, g: string, previous: string, o: Options, offered: set<SecretData>)
    requires NamesApart(o)
    requires SafeDirectory(before, o, offered)
    requires previous == Previous(before) && Generations(before) <= {previous}
    requires g !in before && IsGenerationName(g)
    ensures var d := before[g := Generation(map[])];
            && SafeDirectory(d, o, offered)
            && ActiveName(d) == ActiveName(before) && ActiveFiles(d) == ActiveFiles(before)
            && ActiveName(d) != Some(g)
            && Generations(d) == Generations(before) + {g}
    ensures g != previous
  {
    var d := before[g := Generation(map[])];
    assert Generations(d) == Generations(before) + {g};
    SubsetSize(Generations(d), {previous, g});
    assert DATA in d <==> DATA in before;
  }

  /** Removing the temporary link. */
  lemma ClearingIsSafe(before: Directory, o: Options, offered: set<SecretData>)
    requires NamesApart(o)
    requires SafeDirectory(before, o, offered)
    ensures SafeDirectory(before - {NEXT}, o, offered)
    ensures ActiveName(before - {NEXT}) == ActiveName(before)
    ensures ActiveFiles(before - {NEXT}) == ActiveFiles(before)
    ensures Generations(before - {NEXT}) == Generations(before)
  {
    assert Generations(before - {NEXT}) == Generations(before);
    assert DATA in before - {NEXT} <==> DATA in before;
  }

  /** The swap itself: afterwards the new generation is the active one. */
  lemma SwapIsSafe(before: Directory, g: string, data: SecretData, o: Options, offered: set<SecretData>)
    requires NamesApart(o)
    requires SafeDirectory(before, o, offered)
    requires NEXT in before && before[NEXT] == Link(g)
    requires g in Generations(before) && '/' !in g
    requires before[g].files == PairOf(data, o) && data in offered
    ensures var d := AfterSwap(before, g);
            && SafeDirectory(d, o, offered)
            && ActiveName(d) == Some(g) && ActiveFiles(d) == Some(PairOf(data, o))
            && Generations(d) == Generations(before)
  {
    var d := AfterSwap(before, g);
    assert DATA !in Generations(before);
    assert Generations(d) == Generations(before);
    assert HoldsOneOf(d[g].files, offered, o);
  }

  /** A larger set of offered Secrets only weakens the safety condition. */
  lemma OfferingMore(d: Directory, o: Options, offered: set<SecretData>, more: set<SecretData>)
    requires SafeDirectory(d, o, offered) && offered <= more
    ensures SafeDirectory(d, o, more)
  {
    if DATA in d {
      var files := d[d[DATA].target].files;
      assert HoldsOneOf(files, offered, o);
      var data :| data in offered && files == PairOf(data, o);
      assert data in more;
    }
  }

  /** The states from index `from` on are safe. */
  predicate AllSafe(history: seq<Directory>, from: nat, o: Options, offered: set<SecretData>) {
    forall i :: from <= i < |history| ==> SafeDirectory(history[i], o, offered)
  }

  lemma AllOfferingMore(history: seq<Directory>, o: Options, offered: set<SecretData>, more: set<SecretData>)
    requires AllSafe(history, 0, o, offered) && offered <= more
    ensures AllSafe(history, 0, o, more)
  {
    forall i | 0 <= i < |history|
      ensures SafeDirectory(history[i], o, more)
    {
      OfferingMore(history[i], o, offered, more);
    }
  }

  /** Every state from index `from` up to `to` shows readers exactly these files. */
  predicate AllShow(history: seq<Directory>, from: nat, to: nat, files: Option<map<string, Bytes>>) {
    forall i :: from <= i < to && i < |history| ==> ActiveFiles(history[i]) == files
  }

  predicate AllChangeOnly(before: Directory, history: seq<Directory>, from: nat, g: string) {
    forall i :: from <= i < |history| ==> ChangesOnly(before, history[i], g)
  }

  /** A whole stretch of work on an inactive generation is invisible. */
  lemma InactiveStretchIsSafe(
      before: Directory, history: seq<Directory>, from: nat, g: string, o: Options, offered: set<SecretData>)
    requires NamesApart(o)
    requires SafeDirectory(before, o, offered)
    requires g in Generations(before) && ActiveName(before) != Some(g)
    requires AllChangeOnly(before, history, from, g)
    ensures AllSafe(history, from, o, offered)
    ensures AllShow(history, from, |history|, ActiveFiles(before))
  {
    forall i | from <= i < |history|
      ensures SafeDirectory(history[i], o, offered) && ActiveFiles(history[i]) == ActiveFiles(before)
    {
      InactiveWorkIsSafe(before, history[i], g, o, offered);
    }
  }

  class CertDirectory {
    var entries: Directory
    var history: seq<Directory>

    // How many system calls the operating system has refused.
    ghost var refusals: nat

    ghost predicate Valid()
      reads this`entries, this`history
    {
      history != [] && history[|history| - 1] == entries
    }

    constructor ()
      ensures Valid() && entries == map[] && history == [map[]]
    {
      entries := map[];
      history := [map[]];
      refusals := 0;
    }

    /** One atomic change of the directory. */
    method Become(d: Directory)
      requires Valid()
      modifies this`entries, this`history
      ensures Valid() && entries == d && history == old(history) + [d]
    {
      entries := d;
      history := history + [d];
    }

    /** One atomic change of the files of `g`, on top of earlier ones since the directory was `before`. */
    method Rewrite(g: string, files: map<string, Bytes>, ghost before: Directory, ghost from: nat)
      requires Valid() && ChangesOnly(before, entries, g) && AllChangeOnly(before, history, from, g)
      modifies this`entries, this`history
      ensures Valid() && old(history) <= history && entries == old(entries)[g := Generation(files)]
      ensures ChangesOnly(before, entries, g) && AllChangeOnly(before, history, from, g)
    {
      StillChangesOnly(before, entries, g, files);
      Become(entries[g := Generation(files)]);
    }

    /** os.WriteFile: create or truncate, then one byte after another; it may stop anywhere. */
    method WriteFile(g: string, name: string, data: Bytes) returns (ok: bool)
      requires Valid() && g in entries && entries[g].Generation?
      modifies this
      ensures Valid() && old(history) <= history
      ensures AllChangeOnly(old(entries), history, |old(history)|, g)
      ensures ChangesOnly(old(entries), entries, g) && g in entries
      ensures ok ==> name != "/" && entries == old(entries)[g := Generation(old(entries)[g].files[name := data])]
      ensures refusals >= old(refusals) && (!ok ==> refusals > old(refusals) || name == "/")
    {
      // Joining "/" to a directory gives the directory itself, which cannot be opened for writing.
      var refused: bool := *;
      if name == "/" || refused {
        refusals := if refused then refusals + 1 else refusals;
        return false;
      }
      ghost var before := entries;
      var files := entries[g].files;
      Become(entries[g := Generation(files[name := []])]);
      for k := 0 to |data|
        invariant Valid() && old(history) <= history
        invariant AllChangeOnly(before, history, |old(history)|, g)
        invariant entries == before[g := Generation(files[name := data[..k]])] && refusals == old(refusals)
      {
        var full: bool := *;
        if full {
          refusals := refusals + 1;
          return false;
        }
        Become(entries[g := Generation(files[name := data[..k + 1]])]);
      }
      assert data[..|data|] == data;
      return true;
    }

    /** The files of a tree being removed, in any order; some may survive. */
    method RemoveFiles(g: string) returns (ok: bool)
      requires Valid() && g in entries && entries[g].Generation?
      modifies this
      ensures Valid() && old(history) <= history
      ensures AllChangeOnly(old(entries), history, |old(history)|, g)
      ensures ChangesOnly(old(entries), entries, g)
      ensures refusals >= old(refusals) && (!ok ==> refusals > old(refusals))
    {
      assert ChangesOnly(entries, entries, g) && AllChangeOnly(entries, history, |history|, g);
      hide ChangesOnly, AllChangeOnly;
      ghost var before, from := entries, |history|;
      var todo := entries[g].files.Keys;
      ok := true;
      while todo != {}
        invariant Valid() && old(history) <= history
        invariant AllChangeOnly(before, history, from, g) && ChangesOnly(before, entries, g)
        invariant g in entries && entries[g].Generation?
        invariant refusals >= old(refusals) && (!ok ==> refusals > old(refusals))
        decreases |todo|
      {
        var name :| name in todo;
        todo := todo - {name};
        var kept: bool := *;
        if kept {
          ok, refusals := false, refusals + 1;
        } else {
          Rewrite(g, entries[g].files - {name}, before, from);
        }
      }
    }

    /** os.RemoveAll of a generation: its files, then the directory; parts may survive. */
    method RemoveAll(g: string) returns (ok: bool)
      requires Valid() && (g in entries ==> entries[g].Generation?)
      modifies this
      ensures Valid() && old(history) <= history
      ensures AllChangeOnly(old(entries), history, |old(history)|, g)
      ensures ChangesOnly(old(entries), entries, g)
      ensures ok ==> entries == old(entries) - {g}
      ensures refusals >= old(refusals) && (!ok ==> refusals > old(refusals))
    {
      if g !in entries {
        assert entries - {g} == entries;
        return true;
      }
      ok := RemoveFiles(g);
      hide ChangesOnly;
      var kept: bool := *;
      if !ok || kept {
        refusals := refusals + 1;
        return false;
      }
      StillChangesOnly(old(entries), entries, g, map[]);
      Become(entries - {g});
    }

    /** os.Symlink: refuses an existing path. */
    method Symlink(target: string, path: string) returns (ok: bool)
      requires Valid()
      modifies this
      ensures Valid()
      ensures ok ==> path !in old(entries) && entries == old(entries)[path := Link(target)]
                     && history == old(history) + [entries]
      ensures !ok ==> entries == old(entries) && history == old(history)
      ensures refusals >= old(refusals) && (!ok ==> refusals > old(refusals) || path in old(entries))
    {
      var refused: bool := *;
      if path in entries || refused {
        refusals := if refused then refusals + 1 else refusals;
        return false;
      }
      Become(entries[path := Link(target)]);
      return true;
    }

    /** os.Remove of "..data-next", where a missing file is no error. */
    method RemoveTemporary() returns (ok: bool)
      requires Valid()
      modifies this
      ensures Valid()
      ensures ok ==> entries == old(entries) - {NEXT}
      ensures !ok ==> entries == old(entries)
      ensures history == old(history) || history == old(history) + [entries]
      ensures refusals >= old(refusals)
      ensures !ok ==> refusals > old(refusals) || (NEXT in old(entries) && old(entries)[NEXT].Generation?)
    {
      if NEXT !in entries {
        assert entries - {NEXT} == entries;
        return true;
      }
      var refused: bool := *;
      if refused || (entries[NEXT].Generation? && entries[NEXT].files != map[]) {
        refusals := if refused then refusals + 1 else refusals;
        return false;
      }
      Become(entries - {NEXT});
      return true;
    }

    /** os.Rename of "..data-next" over "..data": one atomic step. */
    method SwapIn() returns (ok: bool)
      requires Valid() && NEXT in entries && DATA != NEXT
      modifies this
      ensures Valid()
      ensures ok ==> entries == (old(entries) - {NEXT})[DATA := old(entries)[NEXT]]
                     && history == old(history) + [entries]
      ensures !ok ==> entries == old(entries) && history == old(history)
      ensures refusals >= old(refusals)
      ensures !ok ==> refusals > old(refusals) || (DATA in old(entries) && old(entries)[DATA].Generation?)
    {
      var refused: bool := *;
      if refused || (DATA in entries && entries[DATA].Generation?) {
        refusals := if refused then refusals + 1 else refusals;
        return false;
      }
      Become((entries - {NEXT})[DATA := entries[NEXT]]);
      return true;
    }

    /** os.MkdirTemp: an empty directory under a name nobody uses. */
    method MakeGeneration() returns (g: Option<string>)
      requires Valid()
      modifies this
      ensures Valid()
      ensures g.Some? ==> g.value !in old(entries) && IsGenerationName(g.value) && '/' !in g.value
                          && entries == old(entries)[g.value := Generation(map[])]
                          && history == old(history) + [entries]
      ensures g.None? ==> entries == old(entries) && history == old(history)
      ensures refusals >= old(refusals) && (g.None? ==> refusals > old(refusals))
    {
      var name: string := *;
      if !IsGenerationName(name) || '/' in name || name in entries {
        refusals := refusals + 1;
        return None;
      }
      Become(entries[name := Generation(map[])]);
      return Some(name);
    }

    /** Nothing readers can see has changed since the directory was `before`, at index `from`. */
    ghost predicate QuietSince(from: nat, before: Directory, o: Options, offered: set<SecretData>)
      reads this`entries, this`history
    {
      && Valid() && from <= |history|
      && SafeDirectory(entries, o, offered) && AllSafe(history, from, o, offered)
      && ActiveName(entries) == ActiveName(before)
      && ActiveFiles(entries) == ActiveFiles(before)
      && AllShow(history, from, |history|, ActiveFiles(before))
    }

    /** Reclaim the generations that interrupted publications left behind, but never the active one. */
    method Reclaim(previous: string, o: Options, ghost offered: set<SecretData>) returns (ok: bool)
      requires Valid() && NamesApart(o) && SafeDirectory(entries, o, offered)
      requires previous == Previous(entries)
      modifies this
      ensures old(history) <= history && QuietSince(|old(history)|, old(entries), o, offered)
      ensures ok ==> Generations(entries) <= {previous}
      ensures refusals >= old(refusals) && (!ok ==> refusals > old(refusals))
    {
      var todo := entries.Keys;
      while todo != {}
        invariant old(history) <= history && QuietSince(|old(history)|, old(entries), o, offered)
        invariant Generations(entries) <= todo + {previous} && refusals >= old(refusals)
        decreases |todo|
      {
        var name :| name in todo;
        todo := todo - {name};
        if name in entries && entries[name].Generation? && IsGenerationName(name) && name != previous {
          ghost var start, from := entries, |history|;
          var removed := RemoveAll(name);
          InactiveStretchIsSafe(start, history, from, name, o, offered);
          InactiveWorkIsSafe(start, entries, name, o, offered);
          if !removed {
            return false;
          }
        }
        assert name !in Generations(entries) || name == previous;
      }
      return true;
    }

    /** One round of the loop over the two names: write the file, lay the public link if it is missing. */
    method WriteAndLink(g: string, name: string, data: Bytes, o: Options, ghost offered: set<SecretData>)
      returns (ok: bool)
      requires Valid() && NamesApart(o) && SafeDirectory(entries, o, offered)
      requires name in {o.certName, o.keyName}
      requires g in Generations(entries) && ActiveName(entries) != Some(g)
      modifies this
      ensures old(history) <= history && QuietSince(|old(history)|, old(entries), o, offered)
      ensures Generations(entries) == Generations(old(entries))
      ensures ok ==> entries[g].files == old(entries)[g].files[name := data]
      ensures ok ==> entries.Keys == old(entries).Keys + {name} && name != "/"
      ensures refusals >= old(refusals) && (!ok ==> refusals > old(refusals) || name == "/")
    {
      var written := WriteFile(g, name, data);
      InactiveStretchIsSafe(old(entries), history, |old(history)|, g, o, offered);
      InactiveWorkIsSafe(old(entries), entries, g, o, offered);
      if !written {
        return false;
      }
      var unreadable: bool := *;
      ghost var unlinked := entries;
      if name !in entries {
        var laid := Symlink(DataPath(name), name);
        if !laid {
          return false;
        }
        LinkingIsSafe(unlinked, name, Link(DataPath(name)), o, offered);
      } else if unreadable {
        refusals := refusals + 1;
        return false;
      }
      return true;
    }

    /** Fill the new generation with the Secret's pair. */
    method WritePair(g: string, data: SecretData, o: Options, ghost offered: set<SecretData>) returns (ok: bool)
      requires Valid() && NamesApart(o) && SafeDirectory(entries, o, offered)
      requires g in Generations(entries) && entries[g].files == map[] && ActiveName(entries) != Some(g)
      modifies this
      ensures old(history) <= history && QuietSince(|old(history)|, old(entries), o, offered)
      ensures Generations(entries) == Generations(old(entries))
      ensures ok ==> entries[g].files == PairOf(data, o)
      ensures ok ==> o.certName in entries && o.keyName in entries && !Unwritable(o)
      ensures refusals >= old(refusals) && (!ok ==> refusals > old(refusals) || Unwritable(o))
    {
      // The source's loop over the two names, unrolled.
      ok := WriteAndLink(g, o.certName, Lookup(data, o.certName), o, offered);
      if !ok {
        return;
      }
      ok := WriteAndLink(g, o.keyName, Lookup(data, o.keyName), o, offered);
      assert QuietSince(|old(history)|, old(entries), o, offered);
    }

    /** Point "..data-next" at the new generation. */
    method PointNext(g: string, o: Options, ghost offered: set<SecretData>) returns (ok: bool)
      requires Valid() && NamesApart(o) && SafeDirectory(entries, o, offered)
      modifies this
      ensures old(history) <= history && QuietSince(|old(history)|, old(entries), o, offered)
      ensures Generations(entries) == Generations(old(entries))
      ensures ok ==> entries == (old(entries) - {NEXT})[NEXT := Link(g)]
      ensures refusals >= old(refusals) && (!ok ==> refusals > old(refusals))
    {
      ok := RemoveTemporary();
      ClearingIsSafe(old(entries), o, offered);
      if !ok {
        return;
      }
      ghost var cleared := entries;
      LinkingIsSafe(cleared, NEXT, Link(g), o, offered);
      ok := Symlink(g, NEXT);
    }

    /** Rename "..data-next" over "..data": the one step readers can see. */
    method Install(g: string, ghost data: SecretData, o: Options, ghost offered: set<SecretData>) returns (ok: bool)
      requires Valid() && NamesApart(o) && SafeDirectory(entries, o, offered)
      requires g in Generations(entries) && '/' !in g
      requires entries[g].files == PairOf(data, o) && data in offered
      modifies this
      ensures Valid() && old(history) <= history
      ensures Generations(entries) == Generations(old(entries))
      ensures !ok ==> QuietSince(|old(history)|, old(entries), o, offered)
      ensures ok ==>
                && SafeDirectory(entries, o, offered) && AllSafe(history, |old(history)|, o, offered)
                && |old(history)| < |history|
                && AllShow(history, |old(history)|, |history| - 1, ActiveFiles(old(entries)))
                && ActiveName(entries) == Some(g) && ActiveFiles(entries) == Some(PairOf(data, o))
      ensures ok && o.certName in old(entries) ==> o.certName in entries
      ensures ok && o.keyName in old(entries) ==> o.keyName in entries
      ensures refusals >= old(refusals) && (!ok ==> refusals > old(refusals))
    {
      ok := PointNext(g, o, offered);
      if !ok {
        return;
      }
      assert entries[g] == old(entries)[g];
      ghost var ready := entries;
      SwapIsSafe(ready, g, data, o, offered);
      ok := SwapIn();
    }

    /** Remove a generation that is not the active one; nothing depends on whether this works. */
    method Discard(g: string, o: Options, ghost offered: set<SecretData>) returns (ok: bool)
      requires Valid() && NamesApart(o) && SafeDirectory(entries, o, offered)
      requires g in Generations(entries) && ActiveName(entries) != Some(g)
      modifies this
      ensures old(history) <= history && QuietSince(|old(history)|, old(entries), o, offered)
      ensures ok ==> Generations(entries) == Generations(old(entries)) - {g} && entries == old(entries) - {g}
      ensures ChangesOnly(old(entries), entries, g)
      ensures refusals >= old(refusals) && (!ok ==> refusals > old(refusals))
    {
      ok := RemoveAll(g);
      InactiveStretchIsSafe(old(entries), history, |old(history)|, g, o, offered);
      InactiveWorkIsSafe(old(entries), entries, g, o, offered);
    }

    /** A new generation, filled with the pair. Its deferred cleanup runs here when filling fails. */
    method Fill(previous: string, data: SecretData, o: Options, ghost offered: set<SecretData>)
      returns (generation: Option<string>)
      requires Valid() && NamesApart(o) && SafeDirectory(entries, o, offered)
      requires previous == Previous(entries) && Generations(entries) <= {previous}
      modifies this
      ensures old(history) <= history && QuietSince(|old(history)|, old(entries), o, offered)
      ensures generation.Some? ==> Filled(previous, generation.value, data, o)
      ensures refusals >= old(refusals) && (generation.None? ==> refusals > old(refusals) || Unwritable(o))
    {
      hide SafeDirectory, ActiveFiles, ActiveName, PairOf, NamesApart, Generations, IsGenerationName, Unwritable;
      ghost var clean := entries;
      generation := MakeGeneration();
      if generation.None? {
        return;
      }
      NewGenerationIsSafe(clean, generation.value, previous, o, offered);
      var filled := WritePair(generation.value, data, o, offered);
      if !filled {
        var _ := Discard(generation.value, o, offered);
        generation := None;
      }
    }

    /** The generation `g` holds the complete pair, both public names are laid, and nothing else is left over. */
    ghost predicate Filled(previous: string, g: string, data: SecretData, o: Options)
      reads this`entries
    {
      && previous == Previous(entries)
      && g in Generations(entries) && '/' !in g && g != previous
      && Generations(entries) <= {previous, g}
      && entries[g].files == PairOf(data, o)
      && o.certName in entries && o.keyName in entries && !Unwritable(o)
    }

    /** Everything up to a filled generation. */
    method Prepare(data: SecretData, o: Options, ghost offered: set<SecretData>)
      returns (previous: string, generation: Option<string>)
      requires Valid() && NamesApart(o) && SafeDirectory(entries, o, offered)
      modifies this
      ensures old(history) <= history && QuietSince(|old(history)|, old(entries), o, offered)
      ensures generation.Some? ==> Filled(previous, generation.value, data, o)
      ensures refusals >= old(refusals) && (generation.None? ==> refusals > old(refusals) || Unwritable(o))
    {
      hide SafeDirectory, ActiveFiles, ActiveName, PairOf, NamesApart, Generations, IsGenerationName, Unwritable;
      previous, generation := "", None;
      var noDirectory: bool, unreadable: bool, unlisted: bool := *, *, *;
      if noDirectory || unreadable || (DATA in entries && !entries[DATA].Link?) || unlisted {
        refusals := refusals + 1;
        return;
      }
      previous := Previous(entries);
      var reclaimed := Reclaim(previous, o, offered);
      if reclaimed {
        generation := Fill(previous, data, o, offered);
      }
    }

    /** After the swap: remove the generation that was active before, if this writer made it. */
    method Retire(previous: string, g: string, data: SecretData, o: Options, ghost offered: set<SecretData>)
      returns (ok: bool)
      requires Valid() && NamesApart(o) && SafeDirectory(entries, o, offered)
      requires ActiveName(entries) == Some(g) && ActiveFiles(entries) == Some(PairOf(data, o))
      requires Generations(entries) <= {previous, g} && g != previous && '/' !in previous
      requires IsGenerationName(previous) ==> previous in Generations(entries)
      requires o.certName in entries && o.keyName in entries
      modifies this
      ensures old(history) <= history && QuietSince(|old(history)|, old(entries), o, offered)
      ensures ok ==> |Generations(entries)| == 1
      ensures Opens(entries, g, data, o)
      ensures refusals >= old(refusals) && (!ok ==> refusals > old(refusals))
    {
      hide SafeDirectory, ActiveFiles, PairOf, Opens;
      ActiveIsAGeneration(entries, o, offered);
      BaseFixpoints(previous);
      if IsGenerationName(previous) && Base(previous) == previous {
        ok := Discard(previous, o, offered);
        SameElsewhere(old(entries), entries, previous);
      } else {
        ok := true;
      }
      ActivePairOpens(entries, g, data, o, offered);
      if ok {
        assert Generations(entries) == {g};
      }
    }

    /**
     publishWebhookCertificate. Whatever happens, every state on the way is safe, and readers see the
     old pair in all states before one index and the new pair in all states from it on. From every safe
     directory, so also after any crash, it succeeds exactly when the names can be written, unless a
     system call is refused.
     */
    method Publish(data: SecretData, o: Options, ghost offered: set<SecretData>) returns (ok: bool, ghost cut: nat)
      requires Valid() && ValidOptions(o) && SafeDirectory(entries, o, offered)
      modifies this
      ensures Valid() && old(history) <= history
      ensures SafeDirectory(entries, o, offered + {data}) && AllSafe(history, |old(history)|, o, offered + {data})
      ensures |old(history)| <= cut <= |history|
      ensures AllShow(history, |old(history)|, cut, ActiveFiles(old(entries)))
      ensures AllShow(history, cut, |history|, Some(PairOf(data, o)))
      ensures ActiveFiles(entries) == if cut < |history| then Some(PairOf(data, o)) else ActiveFiles(old(entries))
      ensures cut < |history| ==> exists g :: Opens(entries, g, data, o)
      ensures ok ==> cut < |history| && exists g :: Published(entries, g, data, o, offered + {data})
      ensures refusals >= old(refusals) && (ok ==> !Unwritable(o))
      ensures !ok ==> refusals > old(refusals) || Unwritable(o)
    {
      hide SafeDirectory, ActiveFiles, ActiveName, PairOf, NamesApart, Generations, ValidOptions, Opens;
      ValidNamesApart(o);
      ghost var all := offered + {data};
      OfferingMore(entries, o, offered, all);
      var previous, generation := Prepare(data, o, all);
      ok, cut := false, |history|;
      if generation.None? {
        return;
      }
      var g := generation.value;
      ActiveIsAGeneration(entries, o, all);
      var installed := Install(g, data, o, all);
      if !installed {
        // The deferred cleanup; its own failure is ignored.
        var _ := Discard(g, o, all);
        cut := |history|;
        return;
      }
      cut := |history| - 1;
      ok := Retire(previous, g, data, o, all);
      assert ok ==> Published(entries, g, data, o, all);
    }
  }

  lemma EmptyIsSafe(o: Options, offered: set<SecretData>)
    ensures SafeDirectory(map[], o, offered)
  {
    assert Generations(map[]) == {};
  }

  /**
   The life of one directory: it starts empty, and publications of any Secrets follow each other, each
   cut short at any point by an error or by a crash that leaves an arbitrary intermediate state.
   Every state the directory is ever in is safe.
   */
  method Lifetime(secrets: seq<SecretData>, o: Options) returns (directory: CertDirectory)
    requires ValidOptions(o)
    ensures fresh(directory) && directory.Valid()
    ensures AllSafe(directory.history, 0, o, set data | data in secrets)
  {
    hide SafeDirectory;
    directory := new CertDirectory();
    ghost var all := set data | data in secrets;
    EmptyIsSafe(o, all);
    for k := 0 to |secrets|
      invariant fresh(directory) && directory.Valid()
      invariant SafeDirectory(directory.entries, o, all) && AllSafe(directory.history, 0, o, all)
    {
      assert all + {secrets[k]} == all;
      var start := |directory.history| - 1;
      var _, _ := directory.Publish(secrets[k], o, all);
      // A crash: the directory is what it was at some instant of this publication.
      var survivor: nat := *;
      if start <= survivor < |directory.history| {
        directory.Become(directory.history[survivor]);
      }
    }
  }
}
