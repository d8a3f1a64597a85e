/**
 The start of a controller on its SQLite dataset (openControllerSQLiteStore), over any sequence of starts
 that fail or crash at any step. Loading the key is the claim protocol of ClaimProtocol; Updates of dead
 starts may still arrive. The environment may remove the stored item, and may put back the one a completed
 start used, but does not forge another.
 */
module DatasetBootstrap {
  import opened Prelude
  import opened ClaimProtocol

  datatype Phase<+V> =
    | Locked
    | Loading(canBootstrap: bool)
    | Activating(item: V)
    | Completing(item: V)
    | Committed(item: V)
    | Running(item: V)
    | Stopped

  /** `complete` remembers the item of the start that durably completed the dataset's bootstrap. */
  datatype World<+V> = World(
    claim: State<V>,
    pristine: bool,
    complete: Option<V>,
    lock: Option<nat>,
    phases: map<nat, Phase<V>>)

  datatype Action<+V> =
    | Open(p: nat)
    | Refuse(p: nat)
    | Inspect(p: nat)
    | Claim(e: Event<V>)
    | Take(p: nat)
    | Activate(p: nat)
    | Complete(p: nat)
    | Finish(p: nat)
    | Stop(p: nat)

  function Owner<V>(a: Action<V>): Option<nat> {
    match a
    case Claim(e) => Actor(e)
    case Open(p) => Some(p)
    case Refuse(p) => Some(p)
    case Inspect(p) => Some(p)
    case Take(p) => Some(p)
    case Activate(p) => Some(p)
    case Complete(p) => Some(p)
    case Finish(p) => Some(p)
    case Stop(p) => Some(p)
  }

  predicate Begins<V>(w: World<V>) {
    Initial(w.claim) && w.lock.None? && w.phases == map[] && w.complete.None?
  }

  predicate In<V>(w: World<V>, p: nat) {
    p in w.phases && !w.phases[p].Stopped?
  }

  /** Which claim events can happen: the loader acts only in its phase, and mints only with permission. */
  predicate ClaimAllowed<V(==)>(w: World<V>, e: Event<V>) {
    && Enabled(w.claim, e)
    && (Actor(e).Some? ==>
          && !e.Join?
          && var p := Actor(e).value;
          && p in w.phases && w.phases[p].Loading?
          && (e.ReadNothing? ==> w.phases[p].canBootstrap))
    && (e.Tamper? && e.item.Some? ==> w.complete == e.item)
  }

  predicate Can<V(==)>(w: World<V>, a: Action<V>) {
    match a
    case Open(p) => p !in w.phases && p !in w.claim.processes
    case Refuse(p) => p !in w.phases && p !in w.claim.processes
    case Inspect(p) => p in w.phases && w.phases[p].Locked? && p !in w.claim.processes
    case Claim(e) => ClaimAllowed(w, e)
    case Take(p) =>
      && p in w.phases && w.phases[p].Loading?
      && p in w.claim.processes && w.claim.processes[p].Accepted?
    case Activate(p) => p in w.phases && w.phases[p].Activating?
    case Complete(p) => p in w.phases && w.phases[p].Completing?
    case Finish(p) => p in w.phases && w.phases[p].Committed?
    case Stop(p) => In(w, p)
  }

  /** DatasetInfo's permission to mint: a new dataset without records whose bootstrap never completed. */
  predicate CanBootstrap<V>(w: World<V>) {
    w.pristine && w.complete.None?
  }

  function Do<V(==)>(w: World<V>, a: Action<V>): World<V>
    requires Can(w, a)
  {
    match a
    case Open(p) =>
      if w.lock.None? then w.(lock := Some(p), phases := w.phases[p := Locked])
      else w.(phases := w.phases[p := Stopped])
    case Refuse(p) => w.(phases := w.phases[p := Stopped])
    case Inspect(p) =>
      w.(phases := w.phases[p := Loading(CanBootstrap(w))], claim := Apply(w.claim, Join(p)))
    case Claim(e) => w.(claim := Apply(w.claim, e))
    case Take(p) => w.(phases := w.phases[p := Activating(w.claim.processes[p].value)])
    case Activate(p) => w.(phases := w.phases[p := Completing(w.phases[p].item)])
    case Complete(p) =>
      var item := w.phases[p].item;
      w.(phases := w.phases[p := Committed(item)],
         complete := if w.complete.None? then Some(item) else w.complete)
    case Finish(p) => w.(phases := w.phases[p := Running(w.phases[p].item)])
    case Stop(p) => w.(phases := w.phases[p := Stopped], lock := None)
  }

  ghost predicate Advances<V(!new)>(w: World<V>, v: World<V>) {
    exists a :: Can(w, a) && v == Do(w, a)
  }

  ghost predicate IsHistory<V(!new)>(trace: seq<World<V>>) {
    && trace != [] && Begins(trace[0])
    && forall i :: 0 <= i < |trace| - 1 ==> Advances(trace[i], trace[i + 1])
  }

  // ---------- what every action keeps ----------

  /** No Update on its way can take effect any more. */
  predicate Settled<V>(s: State<V>) {
    forall i :: 0 <= i < |s.messages| && s.messages[i].fate == InFlight ==> s.messages[i].version < s.register.version
  }

  /** `item` is what is stored, or what was stored before somebody removed it; nothing else can get in. */
  ghost predicate Chosen<V>(s: State<V>, item: V) {
    Settled(s) && (s.register.item.Some? ==> s.register.item.value == item)
  }

  /** The item a start has committed itself to, if any. */
  function Commitment<V>(w: World<V>, p: nat): Option<V>
    requires p in w.phases
  {
    match w.phases[p]
    case Loading(_) =>
      if p !in w.claim.processes then None
      else
        (match w.claim.processes[p]
         case Accepted(_, item) => Some(item)
         case Waiting(_, ticket) =>
           if ticket < |w.claim.messages| && w.claim.messages[ticket].fate == Applied
           then Some(w.claim.messages[ticket].value) else None
         case _ => None)
    case Activating(item) => Some(item)
    case Completing(item) => Some(item)
    case Committed(item) => Some(item)
    case Running(item) => Some(item)
    case _ => None
  }

  ghost predicate LockIsExclusive<V>(w: World<V>) {
    forall p: nat :: In(w, p) <==> w.lock == Some(p)
  }

  /** What a start may be doing, given whether bootstrap is complete. */
  ghost predicate StartOk<V>(w: World<V>, p: nat)
    requires p in w.phases
  {
    && (w.phases[p].Loading? ==>
          && p in w.claim.processes
          && (w.claim.processes[p].Waiting? ==>
                w.phases[p].canBootstrap && w.claim.processes[p].ticket < |w.claim.messages|)
          && (w.phases[p].canBootstrap <==> w.pristine && w.complete.None?))
    && (Commitment(w, p).Some? ==>
          && Chosen(w.claim, Commitment(w, p).value)
          && (w.complete.Some? ==> w.complete == Commitment(w, p)))
    && (w.phases[p].Committed? || w.phases[p].Running? ==> w.complete.Some?)
  }

  ghost predicate Kept<V>(w: World<V>) {
    && Inv(w.claim)
    && LockIsExclusive(w)
    && (w.complete.Some? ==> Chosen(w.claim, w.complete.value))
    && forall p :: p in w.phases ==> StartOk(w, p)
  }

  /** Once an item is chosen, only a new proposal or a forged item could displace it. */
  lemma ChosenStays<V>(s: State<V>, e: Event<V>, item: V)
    requires Inv(s) && Chosen(s, item) && Enabled(s, e)
    requires !e.ReadNothing? && (e.Tamper? && e.item.Some? ==> e.item.value == item)
    ensures Chosen(Apply(s, e), item)
  {
  }

  /** Accepting an item, or having one's Update applied, chooses it; after completion it is the completed one. */
  lemma AcceptingChooses<V>(w: World<V>, e: Event<V>, p: nat)
    requires Inv(w.claim) && ClaimAllowed(w, e)
    requires p in w.phases && w.phases[p].Loading? && StartOk(w, p)
    requires Commitment(w, p).None?
    requires w.complete.Some? ==> Chosen(w.claim, w.complete.value)
    ensures var v := Do(w, Claim(e));
            Commitment(v, p).Some? ==>
              Chosen(v.claim, Commitment(v, p).value) && (w.complete.Some? ==> w.complete == Commitment(v, p))
  {
  }

  /** A commitment is kept until its start gives up. */
  lemma CommitmentStays<V>(w: World<V>, e: Event<V>, p: nat)
    requires Kept(w) && ClaimAllowed(w, e) && p in w.phases && Commitment(w, p).Some?
    ensures var v := Do(w, Claim(e));
            Commitment(v, p).Some? ==>
              Commitment(v, p) == Commitment(w, p) && Chosen(v.claim, Commitment(v, p).value)
  {
    assert StartOk(w, p);
    assert In(w, p);
    assert Actor(e).Some? ==> In(w, Actor(e).value);
    ChosenStays(w.claim, e, Commitment(w, p).value);
  }

  lemma LoadingStaysOk<V>(w: World<V>, e: Event<V>, p: nat)
    requires Inv(w.claim) && ClaimAllowed(w, e) && p in w.phases && w.phases[p].Loading? && StartOk(w, p)
    ensures var v := Do(w, Claim(e));
            && p in v.claim.processes
            && (v.claim.processes[p].Waiting? ==>
                  v.phases[p].canBootstrap && v.claim.processes[p].ticket < |v.claim.messages|)
  {
  }

  lemma ClaimKeeps<V>(w: World<V>, e: Event<V>)
    requires Kept(w) && ClaimAllowed(w, e)
    ensures Kept(Do(w, Claim(e)))
  {
    var v := Do(w, Claim(e));
    StepInv(w.claim, e);
    assert forall p: nat :: In(v, p) <==> In(w, p);
    if w.complete.Some? {
      assert !e.ReadNothing?;
      ChosenStays(w.claim, e, w.complete.value);
    }
    forall p | p in v.phases
      ensures StartOk(v, p)
    {
      assert StartOk(w, p);
      if w.phases[p].Loading? {
        LoadingStaysOk(w, e, p);
      }
      if Commitment(w, p).Some? {
        CommitmentStays(w, e, p);
      } else if w.phases[p].Loading? {
        AcceptingChooses(w, e, p);
      }
    }
  }

  lemma JoinChangesLittle<V>(s: State<V>, p: nat)
    requires Enabled(s, Join(p))
    ensures Apply(s, Join(p)) == s.(processes := s.processes[p := Reading([])])
  {
  }

  lemma LifecycleKeeps<V>(w: World<V>, a: Action<V>)
    requires Kept(w) && Can(w, a) && !a.Claim?
    ensures Kept(Do(w, a))
  {
    hide Inv, Apply;
    var v := Do(w, a);
    var p := Owner(a).value;
    if a.Inspect? {
      StepInv(w.claim, Join(p));
      JoinChangesLittle(w.claim, p);
    }
    assert p in w.phases ==> StartOk(w, p);
    forall q | q in v.phases
      ensures StartOk(v, q)
    {
      if q != p {
        assert StartOk(w, q);
        assert v.phases[q] == w.phases[q];
        assert In(w, p) ==> w.lock == Some(p);
        assert In(w, q) ==> w.lock == Some(q);
      }
    }
  }

  lemma ActionKeeps<V>(w: World<V>, a: Action<V>)
    requires Kept(w) && Can(w, a)
    ensures Kept(Do(w, a))
  {
    if a.Claim? {
      ClaimKeeps(w, a.e);
    } else {
      LifecycleKeeps(w, a);
    }
  }

  // ---------- what holds of every history of starts ----------

  lemma {:induction false} HistoryKeeps<V(!new)>(trace: seq<World<V>>, i: nat)
    requires IsHistory(trace) && i < |trace|
    ensures Kept(trace[i])
  {
    if i == 0 {
      InitialInv(trace[0].claim);
    } else {
      HistoryKeeps(trace, i - 1);
      assert Advances(trace[i - 1], trace[i]);
      var a :| Can(trace[i - 1], a) && trace[i] == Do(trace[i - 1], a);
      ActionKeeps(trace[i - 1], a);
    }
  }

  /** Completion is durable and never changes its item. */
  lemma {:induction false} CompletionStays<V(!new)>(trace: seq<World<V>>, i: nat, j: nat)
    requires IsHistory(trace) && i <= j < |trace| && trace[i].complete.Some?
    ensures trace[j].complete == trace[i].complete
    decreases j - i
  {
    if i < j {
      CompletionStays(trace, i, j - 1);
      assert Advances(trace[j - 1], trace[j]);
    }
  }

  /** Every start that succeeds after one has completed bootstrap returns the completed start's item. */
  lemma SuccessReturnsCompletedItem<V(!new)>(trace: seq<World<V>>, i: nat, j: nat, p: nat)
    requires IsHistory(trace) && i <= j < |trace| && trace[i].complete.Some?
    requires p in trace[j].phases && trace[j].phases[p].Running?
    ensures trace[i].complete == Some(trace[j].phases[p].item)
  {
    HistoryKeeps(trace, j);
    assert StartOk(trace[j], p);
    CompletionStays(trace, i, j);
  }

  /** At most one start holds the dataset at a time, and one that has stopped does not hold it. */
  lemma LockHasOneHolder<V(!new)>(trace: seq<World<V>>, i: nat, p: nat, q: nat)
    requires IsHistory(trace) && i < |trace|
    ensures In(trace[i], p) && In(trace[i], q) ==> p == q
    ensures !In(trace[i], p) ==> trace[i].lock != Some(p)
  {
    HistoryKeeps(trace, i);
    assert LockIsExclusive(trace[i]);
  }

  // ---------- who may mint ----------

  lemma {:induction false} PristineStays<V(!new)>(trace: seq<World<V>>, i: nat)
    requires IsHistory(trace) && i < |trace|
    ensures trace[i].pristine == trace[0].pristine
  {
    if i > 0 {
      PristineStays(trace, i - 1);
      assert Advances(trace[i - 1], trace[i]);
    }
  }

  /** A step that sends an Update: its start loads on a pristine, incomplete dataset that has no item. */
  lemma OnlyPristineMints<V(!new)>(trace: seq<World<V>>, i: nat)
    requires IsHistory(trace) && i + 1 < |trace|
    requires |trace[i + 1].claim.messages| != |trace[i].claim.messages|
    ensures var w := trace[i];
            && w.pristine && w.complete.None? && w.claim.register.item.None?
            && w.lock.Some? && w.lock.value in w.phases && w.phases[w.lock.value].Loading?
  {
    HistoryKeeps(trace, i);
    var w := trace[i];
    assert Advances(w, trace[i + 1]);
    var a :| Can(w, a) && trace[i + 1] == Do(w, a);
    assert a.Claim? && a.e.ReadNothing?;
    assert StartOk(w, a.e.p) && In(w, a.e.p);
  }

  /**
   And every such start may: a loader that finds no item can send any Update exactly if the dataset is
   pristine and its bootstrap is not complete.
   */
  lemma LoaderMayMintExactly<V(!new)>(trace: seq<World<V>>, i: nat, p: nat, mine: V)
    requires IsHistory(trace) && i < |trace|
    requires p in trace[i].phases && trace[i].phases[p].Loading?
    requires p in trace[i].claim.processes && trace[i].claim.processes[p].Reading?
    requires trace[i].claim.register.item.None?
    ensures var w := trace[i];
            var sent := w.claim.messages + [Message(w.claim.register.version, mine, InFlight)];
            (exists v :: Advances(w, v) && v.claim.messages == sent) <==> w.pristine && w.complete.None?
  {
    HistoryKeeps(trace, i);
    var w := trace[i];
    assert StartOk(w, p);
    var sent := w.claim.messages + [Message(w.claim.register.version, mine, InFlight)];
    if w.pristine && w.complete.None? {
      var a := Claim(ReadNothing(p, mine));
      assert Can(w, a);
      assert Advances(w, Do(w, a)) && Do(w, a).claim.messages == sent;
    }
    if v :| Advances(w, v) && v.claim.messages == sent {
      var a :| Can(w, a) && v == Do(w, a);
      assert |v.claim.messages| != |w.claim.messages|;
      assert a.Claim? && a.e.ReadNothing?;
      assert StartOk(w, a.e.p);
    }
  }

  /** An adopted dataset: nothing is ever sent, and the only item anywhere is the one stored at first. */
  ghost predicate Adopted<V>(w: World<V>, first: Option<V>) {
    && !w.pristine
    && w.claim.messages == [] && w.claim.writes == 0
    && (w.claim.register.item.Some? ==> w.claim.register.item == first)
    && (w.complete.Some? ==> w.complete == first)
    && forall p :: p in w.phases && Commitment(w, p).Some? ==> Commitment(w, p) == first
  }

  lemma AdoptedStays<V>(w: World<V>, a: Action<V>, first: Option<V>)
    requires Kept(w) && Adopted(w, first) && Can(w, a)
    ensures Adopted(Do(w, a), first)
  {
    var v := Do(w, a);
    assert !(a.Claim? && a.e.ReadNothing?);
    forall p | p in v.phases && Commitment(v, p).Some?
      ensures Commitment(v, p) == first
    {
      if p in w.phases {
        assert StartOk(w, p);
      }
    }
  }

  /** Over every history of a dataset that is not pristine, no key is ever minted. */
  lemma {:induction false} AdoptionNeverMints<V(!new)>(trace: seq<World<V>>, i: nat)
    requires IsHistory(trace) && i < |trace| && !trace[0].pristine
    ensures Adopted(trace[i], trace[0].claim.register.item)
  {
    if i > 0 {
      AdoptionNeverMints(trace, i - 1);
      HistoryKeeps(trace, i - 1);
      assert Advances(trace[i - 1], trace[i]);
      var a :| Can(trace[i - 1], a) && trace[i] == Do(trace[i - 1], a);
      AdoptedStays(trace[i - 1], a, trace[0].claim.register.item);
    }
  }

  /** So a start on it succeeds only with the item that was stored when the history began. */
  lemma AdoptedStartReturnsFirstItem<V(!new)>(trace: seq<World<V>>, i: nat, p: nat)
    requires IsHistory(trace) && i < |trace| && !trace[0].pristine
    requires p in trace[i].phases && trace[i].phases[p].Running?
    ensures trace[0].claim.register.item == Some(trace[i].phases[p].item)
  {
    AdoptionNeverMints(trace, i);
    assert Commitment(trace[i], p) == Some(trace[i].phases[p].item);
  }

  /** What the end of a start says about the whole history. */
  lemma Ends<V(!new)>(trace: seq<World<V>>, p: nat)
    requires trace != [] && IsHistory(trace)
    ensures var w := trace[|trace| - 1];
            && (In(w, p) <==> w.lock == Some(p))
            && (p in w.phases && w.phases[p].Running? ==> w.complete == Some(w.phases[p].item))
            && (!trace[0].pristine ==>
                  && w.claim.messages == [] && w.claim.writes == 0
                  && (p in w.phases && w.phases[p].Running? ==>
                        trace[0].claim.register.item == Some(w.phases[p].item)))
  {
    hide IsHistory;
    var i := |trace| - 1;
    HistoryKeeps(trace, i);
    assert LockIsExclusive(trace[i]);
    assert p in trace[i].phases ==> StartOk(trace[i], p);
    if !trace[0].pristine {
      AdoptionNeverMints(trace, i);
      if p in trace[i].phases && trace[i].phases[p].Running? {
        AdoptedStartReturnsFirstItem(trace, i, p);
      }
    }
  }

  // ---------- openControllerSQLiteStore ----------

  /** Where a start failed. */
  datatype StartError = NotOpened | LockHeld | NotInspected | NoKey | NoClient | NotActivated | NotCompleted

  /** How far a start that holds the lock had come when it failed. */
  predicate FailedAt<V>(phase: Phase<V>, error: StartError) {
    match error
    case NotOpened => false
    case LockHeld => false
    case NotInspected => phase.Locked?
    case NoKey => phase.Loading?
    case NoClient => phase.Activating?
    case NotActivated => phase.Activating?
    case NotCompleted => phase.Completing? || phase.Committed?
  }

  /** The dataset with everything around it, and the history that led here. */
  class Host<V(==,!new)> {
    var world: World<V>
    ghost var trace: seq<World<V>>

    ghost predicate Valid()
      reads this
    {
      trace != [] && trace[|trace| - 1] == world && IsHistory(trace)
    }

    /** A host on which nothing has started yet, with any dataset and any stored item. */
    constructor (pristine: bool, base: nat, item: Option<V>)
      ensures Valid() && |trace| == 1
      ensures world.pristine == pristine && world.claim.register == Register(base, item)
    {
      var claim := State(base, Register(base, item), [], map[], 0, 0, 0);
      world := World(claim, pristine, None, None, map[]);
      trace := [World(claim, pristine, None, None, map[])];
    }

    method Step(a: Action<V>)
      requires Valid() && Can(world, a)
      modifies this
      ensures Valid() && world == Do(old(world), a) && trace == old(trace) + [world]
    {
      assert Advances(world, Do(world, a));
      world := Do(world, a);
      trace := trace + [world];
    }

    /** Start `p` is where it was. */
    twostate predicate Waits(p: nat)
      reads this
    {
      && p in old(world).phases && p in world.phases && world.phases[p] == old(world).phases[p]
      && (p in world.claim.processes <==> p in old(world).claim.processes)
    }

    /** Any number of actions of anybody but `p`; with `loading`, also the claim events of `p` itself. */
    method Meanwhile(p: nat, loading: bool)
      requires Valid() && p in world.phases
      modifies this
      ensures Valid() && old(trace) <= trace && Waits(p)
    {
      var actions: nat := *;
      for k := 0 to if actions > 0 then actions else 0
        invariant Valid() && old(trace) <= trace && Waits(p)
      {
        var a: Action<V> := *;
        if Can(world, a) && (Owner(a) != Some(p) || (loading && a.Claim?)) {
          Step(a);
        }
      }
    }

    /** Activate the key, complete the dataset, finish. */
    method Settle(p: nat) returns (r: Result<V, StartError>)
      requires Valid() && p in world.phases && world.phases[p].Activating?
      modifies this
      ensures Valid() && old(trace) <= trace && p in world.phases
      ensures r.Ok? ==> world.phases[p] == Running(r.value) && r.value == old(world).phases[p].item
      ensures r.Err? ==> In(world, p) && FailedAt(world.phases[p], r.error)
    {
      hide IsHistory, ClaimAllowed;
      Meanwhile(p, false);
      var rejected: bool, unavailable: bool := *, *;
      if unavailable {
        return Err(NoClient);
      }
      if rejected {
        return Err(NotActivated);
      }
      Step(Activate(p));
      Meanwhile(p, false);
      var refused: bool := *;
      if refused {
        return Err(NotCompleted);
      }
      Step(Complete(p));
      Meanwhile(p, false);
      var unknown: bool := *;
      if unknown {
        // Committed, but its synchronization failed: the caller sees an error.
        return Err(NotCompleted);
      }
      Step(Finish(p));
      return Ok(world.phases[p].item);
    }

    /** Everything between taking the lock and success. A failure returns with the lock still held. */
    method Bootstrap(p: nat) returns (r: Result<V, StartError>)
      requires Valid() && p in world.phases && world.phases[p].Locked? && p !in world.claim.processes
      modifies this
      ensures Valid() && old(trace) <= trace && p in world.phases
      ensures r.Ok? ==> world.phases[p] == Running(r.value)
      ensures r.Err? ==> In(world, p) && FailedAt(world.phases[p], r.error)
    {
      hide IsHistory, ClaimAllowed;
      Meanwhile(p, false);
      var unreadable: bool := *;
      if unreadable {
        return Err(NotInspected);
      }
      Step(Inspect(p));
      // loadKey: the claim protocol, which may end with or without an accepted item.
      Meanwhile(p, true);
      if p !in world.claim.processes || !world.claim.processes[p].Accepted? {
        return Err(NoKey);
      }
      Step(Take(p));
      r := Settle(p);
    }

    /** The store is closed, and with it the lock released. */
    method Close(p: nat)
      requires Valid() && In(world, p)
      modifies this
      ensures Valid() && old(trace) <= trace && p in world.phases && !In(world, p)
    {
      Step(Stop(p));
    }

    /** Everything but the deferred close of a failed start. */
    method OpenLocked(p: nat) returns (r: Result<V, StartError>)
      requires Valid() && p !in world.phases && p !in world.claim.processes
      modifies this
      ensures Valid() && old(trace) <= trace && p in world.phases
      ensures r.Ok? ==> world.phases[p] == Running(r.value)
      ensures r.Err? ==> (In(world, p) <==> r.error !in {NotOpened, LockHeld})
      ensures r == Err(LockHeld) ==> old(world).lock.Some?
      ensures old(world).lock.Some? ==> r in {Err(LockHeld), Err(NotOpened)}
    {
      var unopened: bool := *;
      if unopened {
        Step(Refuse(p));
        return Err(NotOpened);
      }
      Step(Open(p));
      if world.phases[p].Stopped? {
        return Err(LockHeld);
      }
      r := Bootstrap(p);
    }

    /**
     openControllerSQLiteStore: success keeps the lock and matches the completed item; failure releases it. On a
     dataset that is not pristine nothing is ever minted, and success needs the item that was there at first.
     */
    method OpenStore(p: nat) returns (r: Result<V, StartError>)
      requires Valid() && p !in world.phases && p !in world.claim.processes
      modifies this
      ensures Valid() && old(trace) <= trace
      ensures r.Ok? ==> world.lock == Some(p) && world.complete == Some(r.value)
      ensures r.Err? ==> world.lock != Some(p)
      ensures world.pristine == old(world).pristine
      ensures !old(world).pristine ==>
                && world.claim.messages == [] && world.claim.writes == 0
                && (r.Ok? ==> trace[0].claim.register.item == Some(r.value))
      ensures r == Err(LockHeld) ==> old(world).lock.Some?
      ensures old(world).lock.Some? ==> r in {Err(LockHeld), Err(NotOpened)}
    {
      hide IsHistory, Kept, Can, Do;
      PristineStays(trace, |trace| - 1);
      r := OpenLocked(p);
      // The deferred close.
      if r.Err? && In(world, p) {
        Close(p);
      }
      PristineStays(trace, |trace| - 1);
      Ends(trace, p);
    }
  }
}
