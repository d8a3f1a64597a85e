/**
 The certificate syncer: sync, GetCertificate and Start of webhookCertSyncer, with everything that can
 happen around them. Other actors (the API caches, the clock, the watcher's background reader, TLS
 handshakes) run at every point where the source can be overtaken.
 */
module WebhookServing {
  import opened Prelude
  import opened Text
  import opened WebhookOptions
  import opened WebhookDirectory

  /** A parsed serving certificate: the leaf first, then the rest of its chain. */
  datatype Certificate = Certificate(leaf: Bytes, chain: seq<Bytes>)

  /** X.509, kept abstract: parsing a pair, and verifying a leaf against a CA, a DNS name and a time. */
  datatype X509 = X509(
    keyPair: (Bytes, Bytes) -> Option<Certificate>,
    verifies: (Bytes, Bytes, string, int) -> bool)

  datatype SecretObject = SecretObject(deleting: bool, data: SecretData)

  datatype WebhookConfiguration = WebhookConfiguration(deleting: bool, caBundles: seq<Bytes>)

  datatype Refusal =
    | SecretMissing
    | SecretDeleting
    | InvalidKeyPair
    | NotVerified
    | ConfigurationMissing
    | ConfigurationEmptyOrDeleting
    | CANotInjected
    | NotReady
    | WatcherBehind

  datatype SyncError = PublishFailed | LoadFailed

  const CA_ITEM := "ca.crt"

  /** parseWebhookCertificate. */
  function Parse(x: X509, secret: SecretObject, o: Options, now: int): Result<Certificate, Refusal> {
    if secret.deleting then Err(SecretDeleting)
    else
      match x.keyPair(Lookup(secret.data, o.certName), Lookup(secret.data, o.keyName))
      case None => Err(InvalidKeyPair)
      case Some(cert) =>
        if x.verifies(cert.leaf, Lookup(secret.data, CA_ITEM), TrimSpace(o.dnsName), now) then Ok(cert)
        else Err(NotVerified)
  }

  /** The Secret's pair is this certificate, and its leaf verifies at that time against the Secret's own CA. */
  predicate Genuine(x: X509, data: SecretData, o: Options, at: int, cert: Certificate) {
    && x.keyPair(Lookup(data, o.certName), Lookup(data, o.keyName)) == Some(cert)
    && x.verifies(cert.leaf, Lookup(data, "ca.crt"), TrimSpace(o.dnsName), at)
  }

  /** What parses is exactly a genuine Secret that is not being deleted; otherwise the first fault is named. */
  lemma ParsesExactly(x: X509, secret: SecretObject, o: Options, at: int)
    ensures forall cert ::
              Parse(x, secret, o, at) == Ok(cert) <==> !secret.deleting && Genuine(x, secret.data, o, at, cert)
    ensures Parse(x, secret, o, at) == Err(SecretDeleting) <==> secret.deleting
    ensures Parse(x, secret, o, at) == Err(InvalidKeyPair) <==>
            !secret.deleting && x.keyPair(Lookup(secret.data, o.certName), Lookup(secret.data, o.keyName)).None?
  {
  }

  /** The Secret was genuine at some time between these two. */
  ghost predicate WasGenuine(x: X509, data: SecretData, o: Options, from: int, to: int) {
    exists at, cert :: from <= at <= to && Genuine(x, data, o, at, cert)
  }

  /** What the last completed sync decided, with the objects it decided on. */
  datatype Outcome =
    | NeverSynced
    | Rejected(why: Refusal)
    | Loaded(data: SecretData, at: int, configuration: Option<WebhookConfiguration>)

  /** The trust decision at the end of sync. */
  function TrustOf(configuration: Option<WebhookConfiguration>, ca: Bytes): Option<Refusal> {
    match configuration
    case None => Some(ConfigurationMissing)
    case Some(c) =>
      if c.deleting || c.caBundles == [] then Some(ConfigurationEmptyOrDeleting)
      else if exists i :: 0 <= i < |c.caBundles| && c.caBundles[i] != ca then Some(CANotInjected)
      else None
  }

  /** Every listed webhook trusts exactly this CA. */
  predicate Trusts(configuration: Option<WebhookConfiguration>, ca: Bytes) {
    && configuration.Some?
    && var c := configuration.value;
    && !c.deleting && c.caBundles != []
    && forall i :: 0 <= i < |c.caBundles| ==> c.caBundles[i] == ca
  }

  lemma TrustedExactly(configuration: Option<WebhookConfiguration>, ca: Bytes)
    ensures TrustOf(configuration, ca).None? <==> Trusts(configuration, ca)
  {
  }

  ghost predicate EverGenuine(x: X509, data: SecretData, o: Options) {
    exists at, cert :: Genuine(x, data, o, at, cert)
  }

  lemma GenuineLonger(x: X509, data: set<SecretData>, o: Options, since: int, from: int, to: int, more: int)
    requires forall d :: d in data ==> WasGenuine(x, d, o, from, to)
    requires since <= from && to <= more
    ensures forall d :: d in data ==> WasGenuine(x, d, o, since, more)
  {
    hide Genuine;
    forall d | d in data
      ensures WasGenuine(x, d, o, since, more)
    {
      var at, cert :| from <= at <= to && Genuine(x, d, o, at, cert);
    }
  }

  /** sync's decision to publish. */
  predicate MustPublish(current: Option<Certificate>, ca: Bytes, cert: Certificate, data: SecretData) {
    current.None? || cert.leaf != current.value.leaf || Lookup(data, CA_ITEM) != ca
  }

  /** What a reader of the two public names loads. */
  function LoadFrom(x: X509, certAt: Directory, keyAt: Directory, o: Options): Option<Certificate> {
    var cert, key := Open(certAt, o.certName), Open(keyAt, o.keyName);
    if cert.Some? && key.Some? then x.keyPair(cert.value.data, key.value.data) else None
  }

  /** Wherever the public names lead to a Secret's pair, what is loaded is that Secret's certificate. */
  lemma OpensLoads(x: X509, d: Directory, g: string, data: SecretData, o: Options, at: int, cert: Certificate)
    requires Opens(d, g, data, o) && Genuine(x, data, o, at, cert)
    ensures LoadFrom(x, d, d, o) == Some(cert)
  {
  }

  /** What publishing `after` leaves when the rename is done and removing the retired generation is refused. */
  function SwappedNotRetired(
      d: Directory, retired: string, survivors: map<string, Bytes>, g: string, after: SecretData, o: Options): Directory
  {
    AfterSwap(d[g := Generation(PairOf(after, o))], g)[retired := Generation(survivors)]
  }

  lemma PublishedIsAlone(d: Directory, g: string, data: SecretData, o: Options, offered: set<SecretData>)
    requires Published(d, g, data, o, offered)
    ensures Generations(d) == {g} && ActiveName(d) == Some(g)
  {
    SubsetSize({g}, Generations(d));
    if name :| name in Generations(d) && name != g {
      SubsetSize({g, name}, Generations(d));
    }
  }

  lemma NewGenerationIsFilled(
      d: Directory, retired: string, g: string, after: SecretData, o: Options, offered: set<SecretData>)
    requires NamesApart(o) && SafeDirectory(d, o, offered)
    requires Generations(d) == {retired} && ActiveName(d) == Some(retired)
    requires g !in d && IsGenerationName(g)
    ensures var filled := d[g := Generation(PairOf(after, o))];
            SafeDirectory(filled, o, offered) && Generations(filled) == {retired, g}
  {
    hide SafeDirectory, PairOf, NamesApart;
    NewGenerationIsSafe(d, g, retired, o, offered);
    var empty := d[g := Generation(map[])];
    var filled := d[g := Generation(PairOf(after, o))];
    assert filled - {g} == empty - {g};
    InactiveWorkIsSafe(empty, filled, g, o, offered);
  }

  /** The swap, whatever "..data-next" was before it was pointed at `g`. */
  lemma SwapOverIsSafe(d: Directory, g: string, after: SecretData, o: Options, offered: set<SecretData>)
    requires NamesApart(o) && SafeDirectory(d, o, offered)
    requires g in Generations(d) && '/' !in g && d[g].files == PairOf(after, o) && after in offered
    ensures SafeDirectory(AfterSwap(d, g), o, offered) && Generations(AfterSwap(d, g)) == Generations(d)
    ensures ActiveName(AfterSwap(d, g)) == Some(g) && ActiveFiles(AfterSwap(d, g)) == Some(PairOf(after, o))
  {
    hide SafeDirectory, PairOf;
    ClearingIsSafe(d, o, offered);
    var next := (d - {NEXT})[NEXT := Link(g)];
    LinkingIsSafe(d - {NEXT}, NEXT, Link(g), o, offered);
    SwapIsSafe(next, g, after, o, offered);
    assert next - {NEXT} == d - {NEXT};
  }

  lemma LinksStay(d: Directory, o: Options, g: string, retired: string, left: Directory, before: SecretData)
    requires NamesApart(o) && Opens(d, retired, before, o) && IsGenerationName(g) && IsGenerationName(retired)
    requires forall name :: name in d && name != NEXT ==> name in left
    ensures o.certName in left && o.keyName in left
  {
  }

  /**
   Why Start has to stop at the first sync error. Take any two genuine Secrets with different leaves, any
   directory a publication of the first leaves, and a publication of the second that fails while it removes
   the retired generation, with anything left in it. The directory is safe and shows the second Secret, but
   `current` is still the first; if that Secret is cached again, sync does not publish, and the disk stays on
   another leaf than the one sync accepts.
   */
  lemma StoppingIsNeeded(
      x: X509, o: Options, offered: set<SecretData>, d: Directory, retired: string, before: SecretData, at: int,
      cert: Certificate, survivors: map<string, Bytes>, g: string, after: SecretData, later: int, other: Certificate)
    requires ValidOptions(o) && Published(d, retired, before, o, offered)
    requires g !in d && IsGenerationName(g) && '/' !in g
    requires Genuine(x, before, o, at, cert) && Genuine(x, after, o, later, other) && cert.leaf != other.leaf
    ensures var left := SwappedNotRetired(d, retired, survivors, g, after, o);
            && SafeDirectory(left, o, offered + {after}) && Generations(left) == {retired, g}
            && Opens(left, g, after, o)
            && ChangesOnly(AfterSwap(d[g := Generation(PairOf(after, o))], g), left, retired)
            && LoadFrom(x, left, left, o) == Some(other)
            && !MustPublish(Some(cert), Lookup(before, CA_ITEM), cert, before)
  {
    hide SafeDirectory, PairOf, Genuine, LoadFrom, ActiveFiles, NamesApart;
    ValidNamesApart(o);
    PublishedIsAlone(d, retired, before, o, offered);
    var all := offered + {after};
    OfferingMore(d, o, offered, all);
    NewGenerationIsFilled(d, retired, g, after, o, all);
    var filled := d[g := Generation(PairOf(after, o))];
    var swapped := AfterSwap(filled, g);
    SwapOverIsSafe(filled, g, after, o, all);
    var left := swapped[retired := Generation(survivors)];
    assert left - {retired} == swapped - {retired};
    InactiveWorkIsSafe(swapped, left, retired, o, all);
    LinksStay(d, o, g, retired, left, before);
    ActivePairOpens(left, g, after, o, all);
    OpensLoads(x, left, g, after, o, later, other);
  }

  /** A certificate handed to a TLS connection, with the sync and the time it rests on. */
  datatype Served = Served(cert: Certificate, basis: Outcome, at: int)

  /**
   The promise of the gate: the leaf is the one accepted at the last completed sync, it verifies at the
   time of the call against the CA of that same Secret, and at that sync every listed webhook trusted
   exactly that CA.
   */
  predicate Trustworthy(x: X509, o: Options, s: Served) {
    && s.basis.Loaded?
    && var ca := Lookup(s.basis.data, CA_ITEM);
    && var pair := x.keyPair(Lookup(s.basis.data, o.certName), Lookup(s.basis.data, o.keyName));
    && pair.Some? && s.cert.leaf == pair.value.leaf
    && x.verifies(s.cert.leaf, ca, TrimSpace(o.dnsName), s.at)
    && Trusts(s.basis.configuration, ca)
  }

  datatype StartError = CacheNotSynchronized | SyncFailed(cause: SyncError) | WatcherStopped

  /** One call of sync: how many changes there had been when it began, the Secret it read, and its time. */
  datatype SyncRecord = SyncRecord(began: nat, read: Option<SecretObject>, at: int, err: Option<SyncError>)

  /** What a completed sync decides about the Secret it read: it loads it exactly if it is there and genuine. */
  ghost predicate Decided(x: X509, o: Options, read: Option<SecretObject>, at: int, outcome: Outcome) {
    && (outcome.Loaded? <==>
          read.Some? && !read.value.deleting && exists cert :: Genuine(x, read.value.data, o, at, cert))
    && (outcome.Loaded? ==> outcome.data == read.value.data && outcome.at == at)
    && !outcome.NeverSynced?
  }

  lemma ParsedDecides(x: X509, read: Option<SecretObject>, o: Options, at: int)
    ensures read.None? ==> Decided(x, o, read, at, Rejected(SecretMissing))
    ensures read.Some? ==>
              var parsed := Parse(x, read.value, o, at);
              if parsed.Ok? then !read.value.deleting && Genuine(x, read.value.data, o, at, parsed.value)
              else Decided(x, o, read, at, Rejected(parsed.error))
  {
    hide Parse, Genuine;
    if read.Some? {
      ParsesExactly(x, read.value, o, at);
    }
  }

  /** One pass of Start's loop, as it stands when the loop waits for the next event after `seen` changes. */
  datatype Round = Round(
    outcome: Outcome,
    disk: Option<Certificate>,
    confirmed: Option<Certificate>,
    current: Option<Certificate>,
    wakes: bool,
    watching: bool,
    seen: nat)

  ghost predicate Consistent(x: X509, o: Options, sync: SyncRecord, r: Round) {
    && sync.err.None? && Decided(x, o, sync.read, sync.at, r.outcome)
    && r.wakes && sync.began <= r.seen
    && (r.outcome.Loaded? ==>
          && r.watching && r.current.Some? && r.disk.Some? && r.confirmed.Some?
          && Genuine(x, r.outcome.data, o, sync.at, r.current.value)
          && r.disk.value.leaf == r.current.value.leaf
          && r.confirmed.value.leaf == r.current.value.leaf)
  }

  /** What the select statement finds ready. */
  datatype Ready = Cancelled | WatcherResult | Token | Tick

  /** Whether the loop ends there; a watcher that does not run has no result. */
  predicate Ends(e: Ready, watching: bool) {
    e == Cancelled || (e == WatcherResult && watching)
  }

  /**
   The passes of Start: each begins with its own sync, and, but for a last one whose sync failed, comes to its
   wait. Whatever ended a wait, a token or a tick, the next sync began after it.
   */
  ghost predicate Passes(x: X509, o: Options, syncs: seq<SyncRecord>, log: seq<Round>, events: seq<Ready>) {
    && |log| <= |syncs| <= |log| + 1 && |syncs| <= |events|
    && (forall k :: 0 <= k < |log| ==> Consistent(x, o, syncs[k], log[k]))
    && (|syncs| > |log| ==> syncs[|log|].err.Some?)
    && (forall k :: 0 <= k < |log| && k + 1 < |syncs| ==>
          !Ends(events[k], log[k].watching) && log[k].seen <= syncs[k + 1].began)
  }

  /** The loop has ended, by a failed sync or by what was ready. */
  predicate Over(syncs: seq<SyncRecord>, log: seq<Round>, events: seq<Ready>)
    requires |log| <= |events|
  {
    |syncs| > |log| || (log != [] && Ends(events[|log| - 1], log[|log| - 1].watching))
  }

  /** What Start returns. */
  function Returns(syncs: seq<SyncRecord>, log: seq<Round>, events: seq<Ready>): Option<StartError>
    requires |log| <= |events| && (|syncs| > |log| ==> syncs[|syncs| - 1].err.Some?)
  {
    if |syncs| > |log| then Some(SyncFailed(syncs[|syncs| - 1].err.value))
    else if log != [] && events[|log| - 1] == WatcherResult && log[|log| - 1].watching then Some(WatcherStopped)
    else None
  }

  lemma NoPass(x: X509, o: Options, events: seq<Ready>)
    ensures Passes(x, o, [], [], events) && !Over([], [], events) && Returns([], [], events) == None
  {
  }

  ghost function AnyRound(): Round {
    Round(NeverSynced, None, None, None, false, false, 0)
  }

  lemma NextPass(
      x: X509, o: Options, syncs: seq<SyncRecord>, log: seq<Round>, events: seq<Ready>, sync: SyncRecord, round: Round)
    requires Passes(x, o, syncs, log, events) && |syncs| == |log| < |events| && !Over(syncs, log, events)
    requires log != [] ==> sync.began >= log[|log| - 1].seen
    ensures sync.err.Some? ==> Passes(x, o, syncs + [sync], log, events)
    ensures Consistent(x, o, sync, round) ==> Passes(x, o, syncs + [sync], log + [round], events)
  {
    hide Consistent;
  }

  lemma LastIsSafe(history: seq<Directory>, o: Options, offered: set<SecretData>)
    requires history != [] && AllSafe(history, 0, o, offered)
    ensures SafeDirectory(history[|history| - 1], o, offered)
  {
  }

  lemma SafeStretches(before: seq<Directory>, history: seq<Directory>, o: Options, offered: set<SecretData>)
    requires before <= history && AllSafe(before, 0, o, offered) && AllSafe(history, |before|, o, offered)
    ensures AllSafe(history, 0, o, offered)
  {
    forall i | 0 <= i < |history|
      ensures SafeDirectory(history[i], o, offered)
    {
      if i < |before| {
        assert SafeDirectory(before[i], o, offered);
      }
    }
  }

  class Syncer {
    const options: Options
    const x509: X509
    const directory: CertDirectory

    // The syncer's own state, under its mutex. The watcher is nil or holds what it last loaded.
    var current: Option<Certificate>
    var ca: Bytes
    var trustErr: Option<Refusal>
    var watcher: Option<Option<Certificate>>

    // What the caches hold, and the clock.
    var secret: Option<SecretObject>
    var configuration: Option<WebhookConfiguration>
    var now: int

    // The one-slot channel, and the cache events whose handler has not run yet.
    var changed: bool
    var pending: nat

    // Observations for the specification.
    ghost var changes: nat
    ghost var began: nat
    ghost var stale: bool
    ghost var last: Outcome
    ghost var offered: set<SecretData>
    ghost var served: seq<Served>
    ghost var syncs: seq<SyncRecord>

    /** A new process, on a directory that earlier ones may have left in any state they ever had it in. */
    constructor (o: Options, x: X509, d: CertDirectory, ghost before: set<SecretData>)
      requires ValidOptions(o) && d.Valid() && AllSafe(d.history, 0, o, before)
      ensures Valid() && DiskAgrees() && directory == d
      ensures options == o && x509 == x && offered == before && last == NeverSynced && served == [] && syncs == []
    {
      options := o;
      x509 := x;
      directory := d;
      current, ca, trustErr, watcher := None, [], None, None;
      secret, configuration, now := None, None, 0;
      changed, pending := false, 0;
      changes, began, stale, last, offered, served, syncs := 0, 0, false, NeverSynced, before, [], [];
    }

    /** The syncer's state says exactly what the last completed sync decided. */
    ghost predicate Gate()
      reads this
    {
      match last
      case NeverSynced => current.None? && watcher.None? && trustErr.None?
      case Rejected(why) => current.None? && trustErr == Some(why)
      case Loaded(data, at, conf) =>
        && current.Some? && watcher.Some?
        && Genuine(x509, data, options, at, current.value)
        && ca == Lookup(data, CA_ITEM)
        && trustErr == TrustOf(conf, ca)
    }

    /** No wake-up is lost: a change since the last sync began has a token, or a handler on its way. */
    ghost predicate WakesUp()
      reads this
    {
      changes > began ==> changed || pending > 0
    }

    ghost predicate Valid()
      reads this, directory
    {
      && ValidOptions(options)
      && directory.Valid() && AllSafe(directory.history, 0, options, offered)
      && Gate()
      && (current.Some? && !stale ==>
            watcher.Some? && watcher.value.Some? && watcher.value.value.leaf == current.value.leaf)
      && forall i :: 0 <= i < |served| ==> Trustworthy(x509, options, served[i])
    }

    /** The disk behind "..data" holds the current leaf. */
    ghost predicate DiskAgrees()
      reads this, directory
    {
      current.Some? ==>
        var loaded := LoadFrom(x509, directory.entries, directory.entries, options);
        loaded.Some? && loaded.value.leaf == current.value.leaf
    }

    /**
     Any number of outside events: a cached object changes, a handler delivers its token, time passes, or a
     background read of the two files finishes. That read may have opened the certificate at one instant and
     the key at a later one, both long ago.
     */
    method Interfere()
      requires directory.Valid()
      modifies this`secret, this`configuration, this`now, this`changed, this`pending, this`watcher
      modifies this`changes, this`stale
      ensures now >= old(now)
      ensures changes >= old(changes) && (old(changed) ==> changed)
      ensures changes > old(changes) || old(pending) > 0 ==> changed || pending > 0
      ensures watcher.Some? <==> old(watcher).Some?
      ensures !stale ==> !old(stale) && watcher == old(watcher)
    {
      var events: nat := *;
      for k := 0 to if events > 0 then events else 0
        invariant now >= old(now)
        invariant changes >= old(changes) && (old(changed) ==> changed)
        invariant changes > old(changes) || old(pending) > 0 ==> changed || pending > 0
        invariant watcher.Some? <==> old(watcher).Some?
        invariant !stale ==> !old(stale) && watcher == old(watcher)
      {
        var kind: int := *;
        if kind == 0 {
          secret := *;
          changes, pending := changes + 1, pending + 1;
        } else if kind == 1 {
          configuration := *;
          changes, pending := changes + 1, pending + 1;
        } else if kind == 2 && pending > 0 {
          changed, pending := true, pending - 1;
        } else if kind == 3 && watcher.Some? {
          var i: nat, j: nat := *, *;
          if 0 <= i <= j < |directory.history| {
            var read := LoadFrom(x509, directory.history[i], directory.history[j], options);
            if read.Some? {
              watcher := Some(read);
              stale := true;
            }
          }
        } else {
          var passed: nat := *;
          now := now + if passed > 0 then passed else 0;
        }
      }
    }

    /**
     The last completed sync loaded a trusted pair, the watcher holds its leaf, and that leaf verifies now.
     */
    ghost predicate GateOpen()
      requires Valid()
      reads this, directory
    {
      && last.Loaded? && Trusts(last.configuration, Lookup(last.data, CA_ITEM))
      && watcher.value.Some? && watcher.value.value.leaf == current.value.leaf
      && x509.verifies(current.value.leaf, ca, TrimSpace(options.dnsName), now)
    }

    /** GetCertificate: hands out the watcher's certificate only while the gate is open for it. */
    method GetCertificate() returns (r: Result<Certificate, Refusal>)
      requires Valid()
      ensures r.Ok? ==> Trustworthy(x509, options, Served(r.value, last, now))
      ensures r.Ok? <==> GateOpen()
      ensures r.Ok? ==> watcher == Some(Some(r.value))
    {
      hide AllSafe, TrustOf;
      if last.Loaded? {
        TrustedExactly(last.configuration, ca);
      }
      if trustErr.Some? {
        return Err(trustErr.value);
      }
      if current.None? || watcher.None? {
        return Err(NotReady);
      }
      var cert := watcher.value;
      if cert.None? || cert.value.leaf != current.value.leaf {
        return Err(WatcherBehind);
      }
      if !x509.verifies(cert.value.leaf, ca, TrimSpace(options.dnsName), now) {
        return Err(NotVerified);
      }
      return Ok(cert.value);
    }

    /** ReadyChecker: with rotation on, ready only while a certificate would be served and the server runs. */
    method IsReady(started: bool) returns (ready: bool)
      requires Valid()
      ensures ready <==> started && (Enabled(options) ==> GateOpen())
      ensures ready && Enabled(options) ==>
                && watcher.Some? && watcher.value.Some?
                && Trustworthy(x509, options, Served(watcher.value.value, last, now))
    {
      if !Enabled(options) {
        return started;
      }
      var served := GetCertificate();
      return served.Ok? && started;
    }

    /** Outside events and TLS handshakes, while the mutex is free. */
    method Unlocked()
      requires Valid()
      modifies this`secret, this`configuration, this`now, this`changed, this`pending, this`watcher
      modifies this`changes, this`stale, this`served
      ensures Valid() && old(served) <= served && now >= old(now)
      ensures watcher.Some? <==> old(watcher).Some?
      ensures changes >= old(changes) && (old(changed) ==> changed)
      ensures changes > old(changes) || old(pending) > 0 ==> changed || pending > 0
    {
      hide AllSafe, Trustworthy, TrustOf, LoadFrom, Genuine, ValidOptions;
      var rounds: nat := *;
      for k := 0 to if rounds > 0 then rounds else 0
        invariant Valid() && old(served) <= served && now >= old(now)
        invariant watcher.Some? <==> old(watcher).Some?
        invariant changes >= old(changes) && (old(changed) ==> changed)
        invariant changes > old(changes) || old(pending) > 0 ==> changed || pending > 0
      {
        Interfere();
        var r := GetCertificate();
        if r.Ok? {
          served := served + [Served(r.value, last, now)];
        }
      }
      Interfere();
    }

    /** certwatcher's ReadCertificate, called by sync: one file after the other, while others go on. */
    method ReadCertificate() returns (ok: bool)
      requires directory.Valid()
      modifies this`secret, this`configuration, this`now, this`changed, this`pending, this`watcher
      modifies this`changes, this`stale, directory`refusals
      ensures now >= old(now)
      ensures ok ==> LoadFrom(x509, directory.entries, directory.entries, options).Some?
      ensures ok ==> watcher == Some(LoadFrom(x509, directory.entries, directory.entries, options)) && !stale
      ensures directory.refusals >= old(directory.refusals)
      ensures !ok ==> directory.refusals > old(directory.refusals)
                      || LoadFrom(x509, directory.entries, directory.entries, options).None?
      ensures !ok ==> (watcher.Some? <==> old(watcher).Some?) && (!stale ==> !old(stale) && watcher == old(watcher))
      ensures changes >= old(changes) && (old(changed) ==> changed)
      ensures changes > old(changes) || old(pending) > 0 ==> changed || pending > 0
    {
      var cert := Open(directory.entries, options.certName);
      Interfere();
      var key := Open(directory.entries, options.keyName);
      Interfere();
      var unreadable: bool := *;
      if cert.None? || key.None? || unreadable {
        directory.refusals := if unreadable then directory.refusals + 1 else directory.refusals;
        return false;
      }
      var pair := x509.keyPair(cert.value.data, key.value.data);
      if pair.None? {
        return false;
      }
      watcher := Some(pair);
      stale := false;
      return true;
    }

    /** The watcher step of sync: create it, or reload it unless it already holds the Secret's leaf. */
    method RefreshWatcher(cert: Certificate, publish: bool) returns (ok: bool, ghost confirmed: Option<Certificate>)
      requires directory.Valid()
      requires var disk := LoadFrom(x509, directory.entries, directory.entries, options);
               disk.Some? && disk.value.leaf == cert.leaf
      modifies this`secret, this`configuration, this`now, this`changed, this`pending, this`watcher
      modifies this`changes, this`stale, directory`refusals
      ensures directory.refusals >= old(directory.refusals)
      ensures !ok ==> directory.refusals > old(directory.refusals)
      ensures now >= old(now)
      ensures ok ==> confirmed.Some? && confirmed.value.leaf == cert.leaf
      ensures ok ==> watcher == Some(confirmed) && !stale
      ensures !ok ==> (watcher.Some? <==> old(watcher).Some?) && (!stale ==> !old(stale) && watcher == old(watcher))
      ensures changes >= old(changes) && (old(changed) ==> changed)
      ensures changes > old(changes) || old(pending) > 0 ==> changed || pending > 0
    {
      if watcher.None? {
        ok := ReadCertificate();
      } else {
        var loaded := watcher.value;
        if publish || loaded.None? || loaded.value.leaf != cert.leaf {
          ok := ReadCertificate();
        } else {
          ok := true;
          stale := false;
        }
      }
      confirmed := if ok then watcher.value else None;
    }

    /** The last step of sync: does the configuration trust the CA that was just loaded? */
    method CheckTrust() returns (ghost seen: Option<WebhookConfiguration>)
      modifies this`trustErr
      ensures seen == configuration && trustErr == TrustOf(configuration, ca)
    {
      seen := configuration;
      trustErr := None;
      if configuration.None? {
        trustErr := Some(ConfigurationMissing);
        return;
      }
      var bundles := configuration.value.caBundles;
      if configuration.value.deleting || |bundles| == 0 {
        trustErr := Some(ConfigurationEmptyOrDeleting);
        return;
      }
      for i := 0 to |bundles|
        invariant forall j :: 0 <= j < i ==> bundles[j] == ca
      {
        if bundles[i] != ca {
          trustErr := Some(CANotInjected);
          return;
        }
      }
    }

    /** The publication step of sync. */
    method PublishPair(data: SecretData) returns (ok: bool)
      requires ValidOptions(options) && directory.Valid() && AllSafe(directory.history, 0, options, offered)
      modifies this`offered, directory
      ensures directory.Valid() && AllSafe(directory.history, 0, options, offered)
      ensures offered == old(offered) + {data}
      ensures ok ==> LoadFrom(x509, directory.entries, directory.entries, options) ==
                     x509.keyPair(Lookup(data, options.certName), Lookup(data, options.keyName))
      ensures directory.refusals >= old(directory.refusals)
      ensures !ok ==> directory.refusals > old(directory.refusals) || Unwritable(options)
    {
      hide SafeDirectory, ActiveFiles, PairOf, Generations, AllSafe, AllShow;
      ghost var before, cut := directory.history, 0;
      LastIsSafe(before, options, offered);
      AllOfferingMore(before, options, offered, offered + {data});
      ok, cut := directory.Publish(data, options, offered);
      offered := offered + {data};
      SafeStretches(before, directory.history, options, offered);
    }

    /** The end of sync: the pair becomes current, and the gate opens if the configuration trusts its CA. */
    method Accept(cert: Certificate, data: SecretData, ghost at: int)
      requires ValidOptions(options) && directory.Valid() && AllSafe(directory.history, 0, options, offered)
      requires forall i :: 0 <= i < |served| ==> Trustworthy(x509, options, served[i])
      requires Genuine(x509, data, options, at, cert)
      requires watcher.Some? && (!stale ==> watcher.value.Some? && watcher.value.value.leaf == cert.leaf)
      modifies this`current, this`ca, this`trustErr, this`last
      modifies this`secret, this`configuration, this`now, this`changed, this`pending, this`watcher
      modifies this`changes, this`stale
      ensures Valid() && current == Some(cert) && now >= old(now)
      ensures last == Loaded(data, at, configuration)
      ensures changes >= old(changes) && (old(changed) ==> changed)
      ensures changes > old(changes) || old(pending) > 0 ==> changed || pending > 0
    {
      hide AllSafe, Trustworthy, TrustOf, Open, ValidOptions;
      current, ca := Some(cert), Lookup(data, CA_ITEM);
      Interfere();
      ghost var seen := CheckTrust();
      last := Loaded(data, at, seen);
    }

    /** The rest of sync, with the mutex held and a Secret that was genuine at time `at`. */
    method LoadPair(cert: Certificate, data: SecretData, ghost at: int)
      returns (err: Option<SyncError>, ghost confirmed: Option<Certificate>)
      requires Valid() && DiskAgrees() && WakesUp()
      requires Genuine(x509, data, options, at, cert)
      modifies this, directory
      ensures Valid() && WakesUp() && began == old(began) && served == old(served) && syncs == old(syncs)
      ensures now >= old(now) && changes >= old(changes) && (old(watcher).Some? ==> watcher.Some?)
      ensures err.None? ==>
                && DiskAgrees()
                && last == Loaded(data, at, configuration) && current == Some(cert)
                && confirmed.Some? && confirmed.value.leaf == cert.leaf
      ensures err.Some? ==> last == old(last)
      ensures MustPublish(old(current), old(ca), cert, data) ==> offered == old(offered) + {data}
      ensures !MustPublish(old(current), old(ca), cert, data) ==>
                offered == old(offered) && directory.history == old(directory.history)
      ensures directory.refusals >= old(directory.refusals)
      ensures err.Some? ==> directory.refusals > old(directory.refusals) || Unwritable(options)
    {
      hide AllSafe, Trustworthy, TrustOf, Open, ValidOptions;
      var publish := MustPublish(current, ca, cert, data);
      if publish {
        var published := PublishPair(data);
        if !published {
          return Some(PublishFailed), None;
        }
      }
      var ok;
      ok, confirmed := RefreshWatcher(cert, publish);
      if !ok {
        return Some(LoadFailed), None;
      }
      Accept(cert, data, at);
      return None, confirmed;
    }

    /**
     What sync does with the Secret it read. Without error it loads the Secret exactly if it is there, not being
     deleted, and genuine; with one, nothing is decided. Nothing but a genuine Secret is offered to readers, and
     what is current already is not published again.
     */
    twostate predicate Settled(read: Option<SecretObject>, at: int, new err: Option<SyncError>)
      reads this, directory
    {
      && (err.Some? ==> last == old(last))
      && (err.None? ==> Decided(x509, options, read, at, last))
      && (err.None? && last.Rejected? ==> offered == old(offered) && directory.history == old(directory.history))
      && (err.None? && last.Loaded? ==>
            && current.Some? && Genuine(x509, last.data, options, at, current.value)
            && last.configuration == configuration
            && if old(current).Some? && current.value.leaf == old(current).value.leaf
                  && Lookup(last.data, "ca.crt") == old(ca)
               then directory.history == old(directory.history)
               else last.data in offered)
      && (offered != old(offered) ==>
            && read.Some? && !read.value.deleting && offered == old(offered) + {read.value.data}
            && WasGenuine(x509, read.value.data, options, at, at))
    }

    /** sync from where the mutex is held, with the Secret it read and what parsing that gave. */
    method SyncLocked(read: Option<SecretObject>, parsed: Result<Certificate, Refusal>, ghost at: int)
      returns (err: Option<SyncError>, ghost confirmed: Option<Certificate>)
      requires Valid() && DiskAgrees() && WakesUp()
      requires parsed.Ok? ==>
                 read.Some? && !read.value.deleting && Genuine(x509, read.value.data, options, at, parsed.value)
      requires parsed.Err? ==> Decided(x509, options, read, at, Rejected(parsed.error))
      modifies this, directory
      ensures Valid() && WakesUp() && began == old(began) && served == old(served) && syncs == old(syncs)
      ensures now >= old(now) && changes >= old(changes) && (old(watcher).Some? ==> watcher.Some?)
      ensures Settled(read, at, err) && (err.None? ==> DiskAgrees())
      ensures err.None? && last.Loaded? ==> confirmed.Some? && confirmed.value.leaf == current.value.leaf
      ensures directory.refusals >= old(directory.refusals)
      ensures err.Some? ==> directory.refusals > old(directory.refusals) || Unwritable(options)
    {
      hide AllSafe, Trustworthy, TrustOf, LoadFrom, Genuine, ValidOptions;
      if parsed.Err? {
        current, trustErr := None, Some(parsed.error);
        last := Rejected(parsed.error);
        return None, None;
      }
      err, confirmed := LoadPair(parsed.value, read.value.data, at);
    }

    /** The first part of sync, before it takes the mutex: read the cached Secret and parse it. */
    method ReadSecret() returns (read: Option<SecretObject>, parsed: Result<Certificate, Refusal>, ghost at: int)
      requires Valid()
      modifies this`secret, this`configuration, this`now, this`changed, this`pending, this`watcher
      modifies this`changes, this`stale, this`served, this`began
      ensures Valid() && WakesUp() && began == old(changes) && old(served) <= served
      ensures old(now) <= at <= now && changes >= old(changes) && (watcher.Some? <==> old(watcher).Some?)
      ensures read == old(secret)
      ensures parsed.Ok? ==>
                read.Some? && !read.value.deleting && Genuine(x509, read.value.data, options, at, parsed.value)
      ensures parsed.Err? ==> Decided(x509, options, read, at, Rejected(parsed.error))
      ensures old(DiskAgrees()) ==> DiskAgrees()
    {
      hide AllSafe, Trustworthy, TrustOf, LoadFrom, Parse, Genuine, ValidOptions, Decided;
      began := changes;
      read := secret;
      Unlocked();
      at := now;
      parsed := if read.Some? then Parse(x509, read.value, options, now) else Err(SecretMissing);
      ParsedDecides(x509, read, options, at);
      Unlocked();
    }

    /**
     sync. It judges the Secret that was cached when it began, at a time `at` soon after. When it returns without
     error and that Secret was genuine, the disk holds its leaf and so did the watcher when sync was done with it
     (`confirmed`); when it returns an error, the gate still says what the last completed sync decided, and a
     system call was refused (or a name cannot be written).
     */
    method Sync() returns (err: Option<SyncError>, ghost confirmed: Option<Certificate>, ghost at: int)
      requires Valid() && DiskAgrees()
      modifies this, directory
      ensures Valid() && WakesUp() && began == old(changes) && old(served) <= served
      ensures syncs == old(syncs) + [SyncRecord(old(changes), old(secret), at, err)]
      ensures old(now) <= at <= now && changes >= old(changes) && (old(watcher).Some? ==> watcher.Some?)
      ensures Settled(old(secret), at, err) && (err.None? ==> DiskAgrees())
      ensures err.None? && last.Loaded? ==> confirmed.Some? && confirmed.value.leaf == current.value.leaf
      ensures directory.refusals >= old(directory.refusals)
      ensures err.Some? ==> directory.refusals > old(directory.refusals) || Unwritable(options)
    {
      hide AllSafe, Trustworthy, TrustOf, LoadFrom, Genuine, ValidOptions, Decided, WasGenuine;
      var read, parsed;
      read, parsed, at := ReadSecret();
      err, confirmed := SyncLocked(read, parsed, at);
      syncs := syncs + [SyncRecord(began, read, at, err)];
    }

    /** One pass of Start's loop up to its wait: sync, and unless that fails, start the watcher if there is one. */
    method Pass(watcherStarted: bool) returns (failed: Option<SyncError>, started: bool, ghost round: Option<Round>)
      requires Valid() && DiskAgrees() && (watcherStarted ==> watcher.Some?)
      modifies this, directory
      ensures Valid() && old(served) <= served && now >= old(now) && changes >= old(changes)
      ensures watcherStarted ==> watcher.Some?
      ensures |syncs| == |old(syncs)| + 1 && old(syncs) <= syncs
      ensures syncs[|old(syncs)|].began == old(changes) && syncs[|old(syncs)|].err == failed
      ensures failed.Some? ==> round.None? && started == watcherStarted
      ensures failed.None? ==>
                && DiskAgrees() && round.Some? && Consistent(x509, options, syncs[|old(syncs)|], round.value)
                && round.value.seen == changes && round.value.watching == watcher.Some? == started
      ensures old(offered) <= offered
      ensures forall data :: data in offered - old(offered) ==> WasGenuine(x509, data, options, old(now), now)
      ensures directory.refusals >= old(directory.refusals)
      ensures failed.Some? ==> directory.refusals > old(directory.refusals) || Unwritable(options)
    {
      hide AllSafe, Trustworthy, TrustOf, LoadFrom, Parse, Genuine, ValidOptions;
      started, round := watcherStarted, None;
      ghost var confirmed, at;
      failed, confirmed, at := Sync();
      if failed.None? {
        if watcher.Some? && !started {
          started := true;
        }
        Unlocked();
        ghost var disk := LoadFrom(x509, directory.entries, directory.entries, options);
        round := Some(Round(last, disk, confirmed, current, WakesUp(), watcher.Some?, changes));
      }
      if offered != old(offered) {
        GenuineLonger(x509, {old(secret).value.data}, options, old(now), at, at, now);
      }
    }

    /** The token is taken from the channel, if there is one. */
    method Consume()
      requires Valid()
      modifies this`changed
      ensures Valid() && !changed && (old(DiskAgrees()) ==> DiskAgrees())
    {
      changed := false;
    }

    /**
     Start, for as long as the given events last. Every pass has its own sync, also after a token or a tick, and
     that sync begins after the event; the loop ends exactly when the context does, when the running watcher
     does, or when a sync fails, and returns what that calls for. The watcher is started at most once and every
     exit has received its one result. Whatever was published on the way was genuine, and whatever was served
     was trustworthy.
     */
    method Start(synchronized: bool, events: seq<Ready>)
      returns (err: Option<StartError>, starts: nat, results: nat, ghost log: seq<Round>)
      requires Valid() && DiskAgrees()
      modifies this, directory
      ensures Valid() && old(served) <= served && old(syncs) <= syncs && now >= old(now)
      ensures !synchronized ==> err == Some(CacheNotSynchronized) && syncs == old(syncs) && starts == 0
      ensures synchronized ==>
                var mine := syncs[|old(syncs)|..];
                && Passes(x509, options, mine, log, events)
                && (|mine| == |events| || Over(mine, log, events))
                && err == Returns(mine, log, events)
                && (starts == 1 <==> exists k :: 0 <= k < |log| && log[k].watching)
                && (|mine| == |log| > 0 && events[|log| - 1] == Token ==> !changed)
      ensures starts <= 1 && results == starts
      ensures forall data :: data in offered && data !in old(offered) ==> WasGenuine(x509, data, options, old(now), now)
      ensures !(err.Some? && err.value.SyncFailed?) ==> DiskAgrees()
      ensures err.Some? && err.value.SyncFailed? ==> directory.refusals > old(directory.refusals) || Unwritable(options)
    {
      hide AllSafe, Trustworthy, Genuine, ValidOptions, LoadFrom, Consistent, WasGenuine, Gate, Passes;
      err, starts, results, log := None, 0, 0, [];
      if !synchronized {
        return Some(CacheNotSynchronized), 0, 0, [];
      }
      ghost var n := |syncs|;
      NoPass(x509, options, events);
      assert syncs[n..] == [];
      var watcherStarted, over, k := false, false, 0;
      while k < |events| && !over
        invariant k <= |events| && |syncs| == n + k && n <= |syncs|
        invariant Valid() && old(served) <= served && old(syncs) <= syncs && now >= old(now)
        invariant |log| <= k <= |log| + 1 && (!over ==> |log| == k)
        invariant Passes(x509, options, syncs[n..], log, events)
        invariant k > |log| ==> syncs[|syncs| - 1].err.Some?
        invariant over == Over(syncs[n..], log, events) && err == Returns(syncs[n..], log, events)
        invariant k == |log| ==> DiskAgrees()
        invariant log != [] ==> log[|log| - 1].seen <= changes
        invariant watcherStarted ==> watcher.Some?
        invariant !over ==> (watcherStarted <==> starts == 1)
        invariant starts <= 1 && starts == results + (if watcherStarted then 1 else 0)
        invariant starts == 1 <==> exists j :: 0 <= j < |log| && log[j].watching
        invariant k == |log| > 0 && events[k - 1] == Token ==> !changed
        invariant old(offered) <= offered
        invariant forall data :: data in offered - old(offered) ==> WasGenuine(x509, data, options, old(now), now)
        invariant directory.refusals >= old(directory.refusals)
        invariant k > |log| ==> directory.refusals > old(directory.refusals) || Unwritable(options)
        decreases |events| - k
      {
        ghost var mine, earlier, before, published := syncs[n..], log, now, offered;
        ghost var round;
        var failed, started;
        failed, started, round := Pass(watcherStarted);
        GenuineLonger(x509, published - old(offered), options, old(now), old(now), before, now);
        GenuineLonger(x509, offered - published, options, old(now), before, now, now);
        ghost var record := syncs[n + k];
        assert syncs[n..] == mine + [record];
        NextPass(x509, options, mine, earlier, events, record, if round.Some? then round.value else AnyRound());
        if started && !watcherStarted {
          starts := starts + 1;
        }
        watcherStarted := started;
        if failed.Some? {
          err, over := Some(SyncFailed(failed.value)), true;
        } else {
          log := log + [round.value];
          assert log[k].watching == started;
          // The select statement.
          match events[k]
          case Cancelled => over := true;
          case WatcherResult =>
            if watcherStarted {
              watcherStarted, results := false, results + 1;
              err, over := Some(WatcherStopped), true;
            }
          case Token => Consume();
          case Tick =>
        }
        k := k + 1;
      }
      // The deferred function: after cancellation the watcher ends, and its result is received here.
      if watcherStarted {
        results := results + 1;
      }
    }
  }

  /**
   Any number of process lives on one directory. Each runs Start for some rounds and ends anywhere: the next
   one finds the directory as it was at any instant of that life. Whatever any of them served was
   trustworthy, whatever any of them published was genuine, and every state the directory was ever in is safe.
   */
  method Lives(o: Options, x: X509, lives: nat)
    returns (directory: CertDirectory, ghost offered: set<SecretData>, ghost log: seq<Served>)
    requires ValidOptions(o)
    ensures fresh(directory) && directory.Valid() && AllSafe(directory.history, 0, o, offered)
    ensures forall data :: data in offered ==> EverGenuine(x, data, o)
    ensures forall i :: 0 <= i < |log| ==> Trustworthy(x, o, log[i])
  {
    hide SafeDirectory, Trustworthy, Genuine;
    directory := new CertDirectory();
    offered, log := {}, [];
    EmptyIsSafe(o, offered);
    for k := 0 to lives
      invariant fresh(directory) && directory.Valid() && AllSafe(directory.history, 0, o, offered)
      invariant forall data :: data in offered ==> EverGenuine(x, data, o)
      invariant forall i :: 0 <= i < |log| ==> Trustworthy(x, o, log[i])
    {
      var begin := |directory.history| - 1;
      var syncer := new Syncer(o, x, directory, offered);
      var synchronized: bool, events: seq<Ready> := *, *;
      var _, _, _, _ := syncer.Start(synchronized, events);
      offered, log := syncer.offered, log + syncer.served;
      var survivor: nat := *;
      if begin <= survivor < |directory.history| {
        directory.Become(directory.history[survivor]);
      }
    }
  }
}
