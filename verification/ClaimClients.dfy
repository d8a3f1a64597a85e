/**
 The two retry loops that use the claim protocol: ensureAgentExecutionSnapshotKey and claimNamespaceMode.
 Each runs against a cluster in which everybody else may act between any two of its statements, and each of
 its actions is a step of the protocol, so the protocol's theorems hold of every execution.
 */
module ClaimClients {
  import opened Prelude
  import opened Text
  import opened SnapshotKeyCodec
  import opened ClaimProtocol

  /** How the API server answers an Update. */
  datatype Answer = Success | Conflict | Error

  /** Why a claim failed. */
  datatype ClaimError =
    | BadArguments
    | Unreadable
    | Unacceptable
    | Missing
    | NoRandomness
    | UpdateRefused
    | AttemptsExhausted

  /** A version stands for one content of the object. */
  predicate Later<V(==)>(before: Register<V>, after: Register<V>) {
    after.version >= before.version && (after.version == before.version ==> after == before)
  }

  lemma StepKeepsMessages<V>(s: State<V>, e: Event<V>)
    requires Enabled(s, e)
    ensures |s.messages| <= |Apply(s, e).messages|
    ensures forall i :: 0 <= i < |s.messages| ==> Apply(s, e).messages[i].value == s.messages[i].value
    ensures Later(s.register, Apply(s, e).register)
  {
  }

  /** The protocol's state, and the run that led to it. */
  class Cluster<V(==,!new)> {
    var state: State<V>
    ghost var trace: seq<State<V>>

    // How many requests of the clients failed for reasons outside the protocol.
    ghost var faults: nat

    ghost predicate Valid()
      reads this`state, this`trace
    {
      trace != [] && trace[|trace| - 1] == state && IsRun(trace)
    }

    constructor (base: nat, item: Option<V>)
      ensures Valid() && state.register == Register(base, item) && |trace| == 1
    {
      state := State(base, Register(base, item), [], map[], 0, 0, 0);
      trace := [State(base, Register(base, item), [], map[], 0, 0, 0)];
      faults := 0;
    }

    method Step(e: Event<V>)
      requires Valid() && Enabled(state, e)
      modifies this`state, this`trace
      ensures Valid() && state == Apply(old(state), e) && trace == old(trace) + [state]
    {
      assert Next(state, Apply(state, e));
      state := Apply(state, e);
      trace := trace + [state];
    }

    /** In every state of the run from index `from` on, process `p` is as it is now. */
    ghost predicate Untouched(p: nat, from: nat)
      requires Valid()
      reads this`state, this`trace
    {
      forall t :: from <= t < |trace| ==>
        (p in trace[t].processes <==> p in state.processes)
        && (p in state.processes ==> trace[t].processes[p] == state.processes[p])
    }

    /** Any number of steps of anybody but `p`. */
    method Others(p: nat)
      requires Valid()
      modifies this`state, this`trace
      ensures Valid() && old(trace) <= trace && Untouched(p, |old(trace)| - 1)
      ensures Later(old(state).register, state.register)
      ensures |old(state).messages| <= |state.messages|
      ensures forall i :: 0 <= i < |old(state).messages| ==>
                          state.messages[i].value == old(state).messages[i].value
    {
      var events: nat := *;
      for k := 0 to if events > 0 then events else 0
        invariant Valid() && old(trace) <= trace && Untouched(p, |old(trace)| - 1)
        invariant Later(old(state).register, state.register)
        invariant |old(state).messages| <= |state.messages|
        invariant forall i :: 0 <= i < |old(state).messages| ==>
                              state.messages[i].value == old(state).messages[i].value
      {
        var e: Event<V> := *;
        if Enabled(state, e) && Actor(e) != Some(p) {
          StepKeepsMessages(state, e);
          Step(e);
        }
      }
    }

    /** The state the last step started from. */
    ghost function Before(): State<V>
      requires Valid() && |trace| > 1
      reads this`state, this`trace
    {
      trace[|trace| - 2]
    }

    /** A request fails for a reason of its own. */
    method Fault()
      modifies this`faults
      ensures faults == old(faults) + 1
    {
      faults := faults + 1;
    }

    /** `p` enters the race. */
    method Enter(p: nat)
      requires Valid() && p !in state.processes
      modifies this`state, this`trace
      ensures Valid() && trace == old(trace) + [state] && |trace| > 1
      ensures p in state.processes && state.processes[p] == Reading([])
    {
      Step(Join(p));
    }

    /** `p` stops with an error. */
    method Quit(p: nat)
      requires Valid() && p in state.processes && (state.processes[p].Reading? || state.processes[p].Waiting?)
      modifies this`state, this`trace
      ensures Valid() && trace == old(trace) + [state]
      ensures p in state.processes && state.processes[p].Failed?
    {
      Step(GiveUp(p));
    }

    /** `p` found an item and accepts or refuses it. */
    method Judge(p: nat, accept: bool)
      requires Valid() && p in state.processes && state.processes[p].Reading? && state.register.item.Some?
      modifies this`state, this`trace
      ensures Valid() && trace == old(trace) + [state]
      ensures p in state.processes
      ensures if accept then state.processes[p].Accepted? && state.processes[p].value == old(state).register.item.value
              else state.processes[p].Failed?
    {
      Step(ReadItem(p, accept));
    }

    /**
     `p` found no item and sends an Update with its own. After a conflict `p` is back to reading, or has
     failed if that was its last attempt.
     */
    method Propose(p: nat, mine: V) returns (answer: Answer)
      requires Valid() && p in state.processes && state.processes[p].Reading? && state.register.item.None?
      modifies this
      ensures faults >= old(faults) && (answer.Error? ==> faults > old(faults))
      ensures Valid() && old(trace) <= trace && p in state.processes
      ensures answer.Success? ==> state.processes[p].Accepted? && state.processes[p].value == mine
      ensures answer.Error? ==> state.processes[p].Failed?
      ensures answer.Conflict? ==>
                && |state.processes[p].seen| == |old(state).processes[p].seen| + 1
                && if |state.processes[p].seen| < ATTEMPTS then state.processes[p].Reading?
                   else state.processes[p].Failed?
    {
      Step(ReadNothing(p, mine));
      Others(p);
      var failed: bool := *;
      if failed || !Enabled(state, Reply(p)) {
        // Any answer but success or a conflict, whatever became of the Update.
        Step(GiveUp(p));
        faults := faults + 1;
        return Error;
      }
      Step(Reply(p));
      return if state.processes[p].Accepted? then Success else Conflict;
    }
  }

  // ---------- the snapshot key ----------

  /** A stored item; an empty one counts as missing. */
  type Item = data: Bytes | data != [] witness [0]

  datatype SecretOptions = SecretOptions(name: string, key: string)

  /** validateAgentExecutionSnapshotSecretOptions and the namespace check. */
  predicate Configured(namespace: string, o: SecretOptions) {
    (TrimSpace(o.name) == "" || TrimSpace(o.key) != "") && TrimSpace(namespace) != ""
  }

  /** In no state from index `from` on does `p` wait for an Update of its own. */
  ghost predicate NeverWrites<V(!new)>(trace: seq<State<V>>, p: nat, from: nat) {
    forall t :: from <= t < |trace| && p in trace[t].processes ==> !trace[t].processes[p].Waiting?
  }

  /** What a failure says about the item `p` last looked at, its attempts, and the requests it made. */
  ghost predicate Explained<V(!new)>(
      c: Cluster<V>, p: nat, faults: nat, error: ClaimError, mayWrite: bool, acceptable: V -> bool)
    reads c
  {
    && c.Valid() && |c.trace| > 1 && p in c.state.processes && c.state.processes[p].Failed?
    && match error
       case BadArguments => false
       case Unacceptable => c.Before().register.item.Some? && !acceptable(c.Before().register.item.value)
       case Missing => !mayWrite && c.Before().register.item.None?
       case AttemptsExhausted => |c.state.processes[p].seen| == ATTEMPTS
       case _ => c.faults > faults
  }

  predicate Decodes(item: Item) {
    DecodeKey(item).Some?
  }

  /** One attempt: a result, or a conflict that leaves `p` reading again or out of attempts. */
  method AttemptKey(c: Cluster<Item>, p: nat, canBootstrap: bool) returns (r: Option<Result<Bytes, ClaimError>>)
    requires c.Valid() && |c.trace| > 1 && p in c.state.processes && c.state.processes[p].Reading?
    modifies c
    ensures c.Valid() && old(c.trace) <= c.trace && c.faults >= old(c.faults) && p in c.state.processes
    ensures !canBootstrap ==> NeverWrites(c.trace, p, |old(c.trace)|)
    ensures r.None? ==>
              && |c.state.processes[p].seen| == |old(c.state).processes[p].seen| + 1
              && if |c.state.processes[p].seen| < ATTEMPTS then c.state.processes[p].Reading?
                 else c.state.processes[p].Failed?
    ensures r.Some? && r.value.Ok? ==>
              c.state.processes[p].Accepted? && DecodeKey(c.state.processes[p].value) == Some(r.value.value)
    ensures r.Some? && r.value.Err? ==> Explained(c, p, old(c.faults), r.value.error, canBootstrap, Decodes)
  {
    hide IsRun, Apply, Enabled, DecodeKey, Encode;
    c.Others(p);
    var unreadable: bool := *;
    if unreadable {
      c.Fault();
      c.Quit(p);
      return Some(Err(Unreadable));
    }
    if c.state.register.item.Some? {
      var key := DecodeKey(c.state.register.item.value);
      c.Judge(p, key.Some?);
      return Some(if key.Some? then Ok(key.value) else Err(Unacceptable));
    }
    if !canBootstrap {
      c.Quit(p);
      return Some(Err(Missing));
    }
    var key: Bytes := *;
    if |key| != SNAPSHOT_KEY_BYTES {
      c.Fault();
      c.Quit(p);
      return Some(Err(NoRandomness));
    }
    MintedKeyDecodes(key);
    var answer := c.Propose(p, Encode(key));
    return match answer
      case Success => Some(Ok(key))
      case Error => Some(Err(UpdateRefused))
      case Conflict => None;
  }

  /** At index `i` of the run, `p` has returned this key: it is the decoded form of what `p` accepted. */
  ghost predicate ReturnsKey(trace: seq<State<Item>>, i: nat, p: nat, key: Bytes) {
    && i < |trace| && p in trace[i].processes && trace[i].processes[p].Accepted?
    && DecodeKey(trace[i].processes[p].value) == Some(key)
  }

  /**
   ensureAgentExecutionSnapshotKey. A key that is returned is the decoded form of what the process accepted;
   without permission to bootstrap, nothing is ever sent; every failure has its cause.
   */
  method EnsureKey(c: Cluster<Item>, p: nat, namespace: string, o: SecretOptions, canBootstrap: bool)
    returns (r: Result<Bytes, ClaimError>)
    requires c.Valid() && p !in c.state.processes
    modifies c
    ensures c.Valid() && old(c.trace) <= c.trace
    ensures r == Err(BadArguments) <==> !Configured(namespace, o)
    ensures r == Err(BadArguments) ==> c.trace == old(c.trace)
    ensures r.Ok? ==> ReturnsKey(c.trace, |c.trace| - 1, p, r.value)
    ensures r.Err? && Configured(namespace, o) ==> Explained(c, p, old(c.faults), r.error, canBootstrap, Decodes)
    ensures !canBootstrap ==> NeverWrites(c.trace, p, |old(c.trace)|)
  {
    hide IsRun, DecodeKey, Configured;
    if !Configured(namespace, o) {
      return Err(BadArguments);
    }
    c.Enter(p);
    for attempt := 0 to ATTEMPTS
      invariant c.Valid() && old(c.trace) <= c.trace && |c.trace| > 1 && c.faults >= old(c.faults)
      invariant p in c.state.processes && |c.state.processes[p].seen| == attempt
      invariant if attempt < ATTEMPTS then c.state.processes[p].Reading? else c.state.processes[p].Failed?
      invariant !canBootstrap ==> NeverWrites(c.trace, p, |old(c.trace)|)
    {
      var done := AttemptKey(c, p, canBootstrap);
      if done.Some? {
        return done.value;
      }
    }
    return Err(AttemptsExhausted);
  }

  /** Controllers that return a key, whenever they do, return the same key, whatever gets lost or late. */
  lemma KeysAgree(trace: seq<State<Item>>, i: nat, p: nat, key: Bytes, j: nat, q: nat, other: Bytes)
    requires IsRun(trace) && i <= j < |trace| && trace[j].tampers == 0
    requires ReturnsKey(trace, i, p, key) && ReturnsKey(trace, j, q, other)
    ensures key == other
  {
    hide DecodeKey;
    AgreementOverTime(trace, i, p, j, q);
  }

  lemma ReturnStays(early: seq<State<Item>>, trace: seq<State<Item>>, i: nat, p: nat, key: Bytes)
    requires early <= trace && ReturnsKey(early, i, p, key)
    ensures ReturnsKey(trace, i, p, key)
  {
  }

  /**
   Two controllers of one cluster, the second at any time after the first, with everybody else racing: if both
   return a key, it is the same one, unless somebody tampered with the item. The second does not run if the
   race has used its name already.
   */
  method EnsureKeyTwice(
      c: Cluster<Item>, p: nat, q: nat, namespace: string, o: SecretOptions, first: bool, second: bool)
    returns (r: Result<Bytes, ClaimError>, s: Option<Result<Bytes, ClaimError>>)
    requires c.Valid() && p !in c.state.processes && q !in c.state.processes
    modifies c
    ensures c.Valid() && old(c.trace) <= c.trace
    ensures r.Ok? && s.Some? && s.value.Ok? && c.state.tampers == 0 ==> r.value == s.value.value
  {
    hide IsRun, ReturnsKey, Configured;
    s := None;
    r := EnsureKey(c, p, namespace, o, first);
    ghost var i := |c.trace| - 1;
    ghost var early := c.trace;
    c.Others(p);
    if q in c.state.processes {
      return;
    }
    var later := EnsureKey(c, q, namespace, o, second);
    s := Some(later);
    if r.Ok? && later.Ok? && c.state.tampers == 0 {
      ReturnStays(early, c.trace, i, p, r.value);
      KeysAgree(c.trace, i, p, r.value, |c.trace| - 1, q, later.value);
    }
  }

  // ---------- the namespace's execution mode ----------

  /** A label that says something; a blank one counts as missing. */
  type Label = s: string | TrimSpace(s) != "" witness "x"

  const HARNESS_V2 := "harness-v2"

  /** executionmode.ValidateNamespace: the label must parse to a supported mode, and to this one. */
  predicate NamespaceAccepts(raw: string, mode: string) {
    TrimSpace(raw) == HARNESS_V2 && TrimSpace(raw) == mode
  }

  lemma CanonicalMode()
    ensures TrimSpace(HARNESS_V2) == HARNESS_V2
  {
    assert HARNESS_V2[0] == 'h' && HARNESS_V2[|HARNESS_V2| - 1] == '2';
  }

  /** One attempt: a result, or a conflict that leaves `p` reading again or out of attempts. */
  method AttemptMode(c: Cluster<Label>, p: nat, mode: Label, claim: bool) returns (r: Option<Option<ClaimError>>)
    requires c.Valid() && |c.trace| > 1 && p in c.state.processes && c.state.processes[p].Reading?
    modifies c
    ensures c.Valid() && old(c.trace) <= c.trace && c.faults >= old(c.faults) && p in c.state.processes
    ensures !claim ==> NeverWrites(c.trace, p, |old(c.trace)|)
    ensures r.None? ==>
              && |c.state.processes[p].seen| == |old(c.state).processes[p].seen| + 1
              && if |c.state.processes[p].seen| < ATTEMPTS then c.state.processes[p].Reading?
                 else c.state.processes[p].Failed?
    ensures r == Some(None) ==>
              c.state.processes[p].Accepted? && TrimSpace(c.state.processes[p].value) == TrimSpace(mode)
    ensures r.Some? && r.value.Some? ==>
              Explained(c, p, old(c.faults), r.value.value, claim, (raw: Label) => NamespaceAccepts(raw, mode))
  {
    hide IsRun, Apply, Enabled, TrimSpace, Blank;
    c.Others(p);
    var unreadable: bool := *;
    if unreadable {
      c.Fault();
      c.Quit(p);
      return Some(Some(Unreadable));
    }
    if c.state.register.item.Some? {
      CanonicalMode();
      var accepted := NamespaceAccepts(c.state.register.item.value, mode);
      c.Judge(p, accepted);
      return Some(if accepted then None else Some(Unacceptable));
    }
    if !claim {
      // Validation of an unlabelled namespace fails.
      c.Quit(p);
      return Some(Some(Missing));
    }
    var answer := c.Propose(p, mode);
    return match answer
      case Success => Some(None)
      case Error => Some(Some(UpdateRefused))
      case Conflict => None;
  }

  /**
   The same loop for a blank mode. Its Update leaves the label blank, which counts as missing: to everybody
   else it only touches the object.
   */
  method ClaimBlank(c: Cluster<Label>, p: nat, claim: bool) returns (err: Option<ClaimError>)
    requires c.Valid() && p !in c.state.processes
    modifies c
    ensures c.Valid() && old(c.trace) <= c.trace && p !in c.state.processes
    ensures err.None? ==> claim && c.state.register.item.None?
    ensures err.None? ==> |c.trace| > 1 && c.state == Apply(c.Before(), Touch)
    ensures err.Some? && err.value !in {Unacceptable, Missing, AttemptsExhausted} ==>
              err.value in {Unreadable, UpdateRefused} && c.faults > old(c.faults)
    ensures err == Some(Unacceptable) ==> c.state.register.item.Some?
    ensures err == Some(Missing) ==> !claim && c.state.register.item.None?
    ensures err == Some(AttemptsExhausted) ==> c.state.register.version >= old(c.state.register.version) + ATTEMPTS
    ensures NeverWrites(c.trace, p, |old(c.trace)|)
  {
    hide IsRun;
    for attempt := 0 to ATTEMPTS
      invariant c.Valid() && old(c.trace) <= c.trace && p !in c.state.processes && c.faults >= old(c.faults)
      invariant c.state.register.version >= old(c.state.register.version) + attempt
      invariant NeverWrites(c.trace, p, |old(c.trace)|)
    {
      c.Others(p);
      var unreadable: bool, refused: bool := *, *;
      if unreadable {
        c.Fault();
        return Some(Unreadable);
      }
      if c.state.register.item.Some? {
        return Some(Unacceptable);
      }
      if !claim {
        return Some(Missing);
      }
      var read := c.state.register.version;
      c.Others(p);
      if refused {
        c.Fault();
        return Some(UpdateRefused);
      }
      if c.state.register.version == read {
        c.Step(Touch);
        return None;
      }
    }
    return Some(AttemptsExhausted);
  }

  /** At index `i` of the run, `p` has succeeded for this mode: it is what the label `p` accepted says. */
  ghost predicate Claims(trace: seq<State<Label>>, i: nat, p: nat, mode: string) {
    && i < |trace| && p in trace[i].processes && trace[i].processes[p].Accepted?
    && TrimSpace(trace[i].processes[p].value) == TrimSpace(mode)
  }

  /**
   claimNamespaceMode. Success for a mode that says something means that the accepted label names it; success
   for a blank mode means that nothing is claimed. A loser reads the winner's label and fails the mode check.
   */
  method ClaimNamespaceMode(c: Cluster<Label>, p: nat, name: string, mode: string, claim: bool)
    returns (err: Option<ClaimError>)
    requires c.Valid() && p !in c.state.processes
    modifies c
    ensures c.Valid() && old(c.trace) <= c.trace
    ensures err == Some(BadArguments) <==> TrimSpace(name) == ""
    ensures err == Some(BadArguments) ==> c.trace == old(c.trace)
    ensures err.None? && TrimSpace(mode) != "" ==> Claims(c.trace, |c.trace| - 1, p, mode)
    ensures err.None? && TrimSpace(mode) == "" ==> p !in c.state.processes && c.state.register.item.None?
    ensures err.Some? && TrimSpace(name) != "" && TrimSpace(mode) != "" ==>
              Explained(c, p, old(c.faults), err.value, claim, (raw: Label) => NamespaceAccepts(raw, mode))
    ensures !claim ==> NeverWrites(c.trace, p, |old(c.trace)|)
  {
    hide IsRun, TrimSpace, Blank;
    if TrimSpace(name) == "" {
      return Some(BadArguments);
    }
    if TrimSpace(mode) == "" {
      err := ClaimBlank(c, p, claim);
      return;
    }
    c.Enter(p);
    for attempt := 0 to ATTEMPTS
      invariant c.Valid() && old(c.trace) <= c.trace && |c.trace| > 1 && c.faults >= old(c.faults)
      invariant p in c.state.processes && |c.state.processes[p].seen| == attempt
      invariant if attempt < ATTEMPTS then c.state.processes[p].Reading? else c.state.processes[p].Failed?
      invariant !claim ==> NeverWrites(c.trace, p, |old(c.trace)|)
    {
      var done := AttemptMode(c, p, mode, claim);
      if done.Some? {
        return done.value;
      }
    }
    return Some(AttemptsExhausted);
  }

  /** Claimers that succeed, whenever they do, name one mode: the label's, which was written at most once. */
  lemma SuccessfulClaimersAgree(trace: seq<State<Label>>, i: nat, p: nat, mode: string, j: nat, q: nat, other: string)
    requires IsRun(trace) && i <= j < |trace| && trace[j].tampers == 0
    requires Claims(trace, i, p, mode) && Claims(trace, j, q, other)
    ensures TrimSpace(mode) == TrimSpace(other)
    ensures trace[j].register.item.Some? && TrimSpace(trace[j].register.item.value) == TrimSpace(mode)
    ensures trace[j].writes <= 1
  {
    hide TrimSpace;
    AgreementOverTime(trace, i, p, j, q);
    WriteOnce(trace, i, j);
  }

  lemma ClaimStays(early: seq<State<Label>>, trace: seq<State<Label>>, i: nat, p: nat, mode: string)
    requires early <= trace && Claims(early, i, p, mode)
    ensures Claims(trace, i, p, mode)
  {
  }

  /**
   Two claimers of one namespace, the second at any time after the first, with everybody else racing: if both
   succeed for modes that say something, the modes are the same, unless somebody tampered with the label.
   */
  method ClaimTwice(c: Cluster<Label>, p: nat, q: nat, name: string, mode: string, other: string)
    returns (r: Option<ClaimError>, s: Option<Option<ClaimError>>)
    requires c.Valid() && p !in c.state.processes && q !in c.state.processes
    modifies c
    ensures c.Valid() && old(c.trace) <= c.trace
    ensures r.None? && s == Some(None) && TrimSpace(mode) != "" && TrimSpace(other) != "" && c.state.tampers == 0 ==>
              TrimSpace(mode) == TrimSpace(other)
  {
    hide IsRun, Claims, TrimSpace, NamespaceAccepts;
    s := None;
    r := ClaimNamespaceMode(c, p, name, mode, true);
    ghost var i := |c.trace| - 1;
    ghost var early := c.trace;
    c.Others(p);
    if q in c.state.processes {
      return;
    }
    var later := ClaimNamespaceMode(c, q, name, other, true);
    s := Some(later);
    if r.None? && later.None? && TrimSpace(mode) != "" && TrimSpace(other) != "" && c.state.tampers == 0 {
      ClaimStays(early, c.trace, i, p, mode);
      SuccessfulClaimersAgree(c.trace, i, p, mode, |c.trace| - 1, q, other);
    }
  }
}
