/**
 Claiming one item of a versioned Kubernetes object, as the snapshot key bootstrap and the namespace mode
 claim both do it: read the object; if the item is there, accept or refuse it; if it is missing, send an
 Update that carries the version read, and start over when that Update conflicts, three times at most.

 Any number of processes race. An Update may be applied, conflict, get lost, be applied although its sender
 sees an error, or arrive long after its sender died. Other writers may touch the rest of the object, and,
 counted separately, may remove the item or put one back.
 */
module ClaimProtocol {
  import opened Prelude

  const ATTEMPTS := 3

  datatype Register<+V> = Register(version: nat, item: Option<V>)

  datatype Fate = InFlight | Applied | Conflicted | Lost

  datatype Message<+V> = Message(version: nat, value: V, fate: Fate)

  /** A process, with the versions at which its earlier attempts conflicted. */
  datatype Process<+V> =
    | Reading(seen: seq<nat>)
    | Waiting(seen: seq<nat>, ticket: nat)
    | Accepted(seen: seq<nat>, value: V)
    | Failed(seen: seq<nat>)

  datatype State<+V> = State(
    base: nat,
    register: Register<V>,
    messages: seq<Message<V>>,
    processes: map<nat, Process<V>>,
    writes: nat,
    touches: nat,
    tampers: nat)

  datatype Event<+V> =
    | Join(p: nat)
    | ReadItem(p: nat, accept: bool)
    | ReadNothing(p: nat, mine: V)
    | Reply(p: nat)
    | GiveUp(p: nat)
    | Deliver(ticket: nat)
    | Lose(ticket: nat)
    | Touch
    | Tamper(item: Option<V>)

  predicate Initial<V>(s: State<V>) {
    && s.register.version == s.base
    && s.messages == [] && s.processes == map[]
    && s.writes == 0 && s.touches == 0 && s.tampers == 0
  }

  /** The process an event belongs to; deliveries and other writers belong to none. */
  function Actor<V>(e: Event<V>): Option<nat> {
    match e
    case Join(p) => Some(p)
    case ReadItem(p, _) => Some(p)
    case ReadNothing(p, _) => Some(p)
    case Reply(p) => Some(p)
    case GiveUp(p) => Some(p)
    case _ => None
  }

  predicate Enabled<V>(s: State<V>, e: Event<V>) {
    match e
    case Join(p) => p !in s.processes
    case ReadItem(p, _) => p in s.processes && s.processes[p].Reading? && s.register.item.Some?
    case ReadNothing(p, _) => p in s.processes && s.processes[p].Reading? && s.register.item.None?
    case Reply(p) =>
      && p in s.processes && s.processes[p].Waiting?
      && s.processes[p].ticket < |s.messages|
      && s.messages[s.processes[p].ticket].fate in {Applied, Conflicted}
    case GiveUp(p) => p in s.processes && (s.processes[p].Reading? || s.processes[p].Waiting?)
    case Deliver(i) => i < |s.messages| && s.messages[i].fate == InFlight
    case Lose(i) => i < |s.messages| && s.messages[i].fate == InFlight
    case Touch => true
    case Tamper(_) => true
  }

  /** The conditional Update: it takes effect only on the version its sender read. */
  function Arrive<V>(s: State<V>, i: nat): State<V>
    requires Enabled(s, Deliver(i))
  {
    var m := s.messages[i];
    if m.version == s.register.version then
      s.(register := Register(s.register.version + 1, Some(m.value)),
         messages := s.messages[i := m.(fate := Applied)],
         writes := s.writes + 1)
    else
      s.(messages := s.messages[i := m.(fate := Conflicted)])
  }

  /** What the sender does with the answer. */
  function AfterReply<V>(s: State<V>, p: nat): Process<V>
    requires Enabled(s, Reply(p))
  {
    var Waiting(seen, ticket) := s.processes[p];
    var m := s.messages[ticket];
    if m.fate == Applied then Accepted(seen, m.value)
    else if |seen| + 1 < ATTEMPTS then Reading(seen + [m.version])
    else Failed(seen + [m.version])
  }

  function Apply<V>(s: State<V>, e: Event<V>): State<V>
    requires Enabled(s, e)
  {
    match e
    case Join(p) => s.(processes := s.processes[p := Reading([])])
    case ReadItem(p, accept) =>
      var seen := s.processes[p].seen;
      s.(processes := s.processes[p := if accept then Accepted(seen, s.register.item.value) else Failed(seen)])
    case ReadNothing(p, mine) =>
      s.(messages := s.messages + [Message(s.register.version, mine, InFlight)],
         processes := s.processes[p := Waiting(s.processes[p].seen, |s.messages|)])
    case Reply(p) => s.(processes := s.processes[p := AfterReply(s, p)])
    case GiveUp(p) => s.(processes := s.processes[p := Failed(s.processes[p].seen)])
    case Deliver(i) => Arrive(s, i)
    case Lose(i) => s.(messages := s.messages[i := s.messages[i].(fate := Lost)])
    case Touch => s.(register := s.register.(version := s.register.version + 1), touches := s.touches + 1)
    case Tamper(item) => s.(register := Register(s.register.version + 1, item), tampers := s.tampers + 1)
  }

  ghost predicate Next<V(!new)>(s: State<V>, t: State<V>) {
    exists e :: Enabled(s, e) && t == Apply(s, e)
  }

  ghost predicate IsRun<V(!new)>(trace: seq<State<V>>) {
    && trace != [] && Initial(trace[0])
    && forall i :: 0 <= i < |trace| - 1 ==> Next(trace[i], trace[i + 1])
  }

  // ---------- what every step keeps ----------

  predicate Increasing(seen: seq<nat>, from: nat, below: nat) {
    && (forall i, j :: 0 <= i < j < |seen| ==> seen[i] < seen[j])
    && (forall i :: 0 <= i < |seen| ==> from <= seen[i] < below)
  }

  lemma {:induction false} IncreasingFits(seen: seq<nat>, from: nat, below: nat)
    requires from <= below && Increasing(seen, from, below)
    ensures |seen| <= below - from
  {
    if seen != [] {
      var n := |seen| - 1;
      IncreasingFits(seen[..n], from, seen[n]);
    }
  }

  /** An Update still on its way carries a version at which the item was missing. */
  predicate MessagesAreOld<V>(s: State<V>) {
    forall i :: 0 <= i < |s.messages| ==>
      && s.messages[i].version <= s.register.version
      && (s.messages[i].fate in {Applied, Conflicted} ==> s.messages[i].version < s.register.version)
      && (s.messages[i].fate == InFlight && s.register.item.Some? ==> s.messages[i].version < s.register.version)
  }

  /** Each conflict of a process happened at its own, later version. */
  predicate ProcessOk<V>(s: State<V>, q: Process<V>) {
    && Increasing(q.seen, s.base, s.register.version)
    && |q.seen| <= (if q.Failed? then ATTEMPTS else ATTEMPTS - 1)
    && (q.Waiting? ==>
          && q.ticket < |s.messages|
          && s.base <= s.messages[q.ticket].version
          && Increasing(q.seen, s.base, s.messages[q.ticket].version))
  }

  predicate ConflictsAreDistinct<V>(s: State<V>) {
    forall p :: p in s.processes ==> ProcessOk(s, s.processes[p])
  }

  predicate VersionsAddUp<V>(s: State<V>) {
    s.register.version == s.base + s.writes + s.touches + s.tampers
  }

  /** While nobody tampers with the item, there is at most one write and everyone accepts the stored item. */
  ghost predicate OneClaim<V>(s: State<V>) {
    s.tampers == 0 ==>
      && s.writes <= 1
      && (s.writes == 1 ==> s.register.item.Some?)
      && (forall i :: 0 <= i < |s.messages| && s.messages[i].fate == Applied ==>
            s.register.item == Some(s.messages[i].value))
      && (forall p :: p in s.processes && s.processes[p].Accepted? ==>
            s.register.item == Some(s.processes[p].value))
  }

  ghost predicate Inv<V>(s: State<V>) {
    MessagesAreOld(s) && ConflictsAreDistinct(s) && VersionsAddUp(s) && OneClaim(s)
  }

  lemma InitialInv<V>(s: State<V>)
    requires Initial(s)
    ensures Inv(s)
  {
  }

  lemma StepMessages<V>(s: State<V>, e: Event<V>)
    requires MessagesAreOld(s) && Enabled(s, e)
    ensures MessagesAreOld(Apply(s, e))
  {
  }

  /** A process that is not the one acting keeps its record. */
  lemma OthersStayOk<V>(s: State<V>, e: Event<V>, q: Process<V>)
    requires MessagesAreOld(s) && Enabled(s, e) && ProcessOk(s, q)
    ensures ProcessOk(Apply(s, e), q)
  {
  }

  lemma ActorStaysOk<V>(s: State<V>, e: Event<V>, p: nat)
    requires MessagesAreOld(s) && VersionsAddUp(s) && Enabled(s, e) && Actor(e) == Some(p)
    requires p in s.processes && ProcessOk(s, s.processes[p])
    ensures ProcessOk(Apply(s, e), Apply(s, e).processes[p])
  {
  }

  lemma StepConflicts<V>(s: State<V>, e: Event<V>)
    requires MessagesAreOld(s) && ConflictsAreDistinct(s) && VersionsAddUp(s) && Enabled(s, e)
    ensures ConflictsAreDistinct(Apply(s, e)) && VersionsAddUp(Apply(s, e))
  {
    var t := Apply(s, e);
    forall p | p in t.processes
      ensures ProcessOk(t, t.processes[p])
    {
      if p in s.processes {
        OthersStayOk(s, e, s.processes[p]);
        if Actor(e) == Some(p) {
          ActorStaysOk(s, e, p);
        }
      }
    }
  }

  lemma StepOneClaim<V>(s: State<V>, e: Event<V>)
    requires MessagesAreOld(s) && OneClaim(s) && Enabled(s, e)
    ensures OneClaim(Apply(s, e))
  {
  }

  lemma StepInv<V>(s: State<V>, e: Event<V>)
    requires Inv(s) && Enabled(s, e)
    ensures Inv(Apply(s, e))
  {
    StepMessages(s, e);
    StepConflicts(s, e);
    StepOneClaim(s, e);
  }

  lemma {:induction false} RunInv<V(!new)>(trace: seq<State<V>>, i: nat)
    requires IsRun(trace) && i < |trace|
    ensures Inv(trace[i])
  {
    if i == 0 {
      InitialInv(trace[0]);
    } else {
      RunInv(trace, i - 1);
      assert Next(trace[i - 1], trace[i]);
      var e :| Enabled(trace[i - 1], e) && trace[i] == Apply(trace[i - 1], e);
      StepInv(trace[i - 1], e);
    }
  }

  // ---------- what holds of every run ----------

  /** All processes that accept, accept the same item, and it is the stored one. */
  lemma Agreement<V(!new)>(trace: seq<State<V>>, i: nat, p: nat, q: nat)
    requires IsRun(trace) && i < |trace| && trace[i].tampers == 0
    requires p in trace[i].processes && trace[i].processes[p].Accepted?
    requires q in trace[i].processes && trace[i].processes[q].Accepted?
    ensures trace[i].processes[p].value == trace[i].processes[q].value
    ensures trace[i].register.item == Some(trace[i].processes[p].value)
  {
    RunInv(trace, i);
  }

  /** A stored item is never overwritten, and at most one Update ever takes effect. */
  lemma {:induction false} WriteOnce<V(!new)>(trace: seq<State<V>>, i: nat, j: nat)
    requires IsRun(trace) && i <= j < |trace| && trace[j].tampers == 0
    ensures trace[j].writes <= 1
    ensures trace[i].register.item.Some? ==> trace[j].register.item == trace[i].register.item
    ensures trace[i].register.item.Some? ==> trace[j].writes == trace[i].writes
    decreases j
  {
    RunInv(trace, j);
    if i < j {
      assert Next(trace[j - 1], trace[j]);
      WriteOnce(trace, i, j - 1);
      RunInv(trace, j - 1);
    }
  }

  lemma {:induction false} TampersGrow<V(!new)>(trace: seq<State<V>>, i: nat, j: nat)
    requires IsRun(trace) && i <= j < |trace|
    ensures trace[i].tampers <= trace[j].tampers
    decreases j
  {
    if i < j {
      assert Next(trace[j - 1], trace[j]);
      TampersGrow(trace, i, j - 1);
    }
  }

  /** A process that accepted earlier and one that accepts later have accepted the same item. */
  lemma AgreementOverTime<V(!new)>(trace: seq<State<V>>, i: nat, p: nat, j: nat, q: nat)
    requires IsRun(trace) && i <= j < |trace| && trace[j].tampers == 0
    requires p in trace[i].processes && trace[i].processes[p].Accepted?
    requires q in trace[j].processes && trace[j].processes[q].Accepted?
    ensures trace[i].processes[p].value == trace[j].processes[q].value
    ensures trace[j].register.item == Some(trace[i].processes[p].value)
  {
    TampersGrow(trace, i, j);
    Agreement(trace, i, p, p);
    Agreement(trace, j, q, q);
    WriteOnce(trace, i, j);
  }

  /** A process that runs out of attempts lost to three writes at three different versions. */
  lemma ExhaustionNeedsThreeWrites<V(!new)>(trace: seq<State<V>>, i: nat, p: nat)
    requires IsRun(trace) && i < |trace|
    requires p in trace[i].processes && |trace[i].processes[p].seen| == ATTEMPTS
    ensures var seen := trace[i].processes[p].seen;
            trace[i].base <= seen[0] < seen[1] < seen[2] < trace[i].register.version
    ensures trace[i].writes + trace[i].touches + trace[i].tampers >= 3
  {
    RunInv(trace, i);
  }

  /** Among claimers alone, nobody meets more than one conflict, so nobody runs out of attempts. */
  lemma ClaimersConflictOnce<V(!new)>(trace: seq<State<V>>, i: nat, p: nat)
    requires IsRun(trace) && i < |trace| && trace[i].touches == 0 && trace[i].tampers == 0
    requires p in trace[i].processes
    ensures |trace[i].processes[p].seen| <= 1
  {
    RunInv(trace, i);
    IncreasingFits(trace[i].processes[p].seen, trace[i].base, trace[i].register.version);
  }
}
