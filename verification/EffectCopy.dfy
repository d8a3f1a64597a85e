/**
 The hand-written deep copy of ExternalEffect and ExternalEffectList. Pointers are heap objects here, so that
 what a copy shares with its original can be told from what it owns.
 */
module EffectCopy {
  import opened Prelude

  class Time {
    var at: int

    constructor (at: int)
      ensures this.at == at
    {
      this.at := at;
    }

    /** metav1.Time's DeepCopy. */
    method DeepCopy() returns (copy: Time)
      ensures fresh(copy) && copy.at == at
    {
      copy := new Time(at);
    }
  }

  /** A Go map of strings, such as labels or annotations. */
  class StringMap {
    var entries: map<string, string>

    constructor (entries: map<string, string>)
      ensures this.entries == entries
    {
      this.entries := entries;
    }
  }

  /** apiextensionsv1.JSON: its raw bytes may be nil. */
  class RawJSON {
    var raw: array?<byte>

    constructor (raw: array?<byte>)
      ensures this.raw == raw
    {
      this.raw := raw;
    }
  }

  datatype EffectSpec = EffectSpec(
    id: string, kind: string, identityNamespace: string, aggregateID: string,
    operationID: string, requestDigest: string, approvalTaskUID: string)

  /** The fields of an effect that are plain values. */
  datatype Scalars = Scalars(
    apiVersion: string, objectKind: string, name: string, namespace: string, uid: string, spec: EffectSpec,
    state: string, responseDigest: string, leaseOwner: string, attempts: int, version: int)

  /** The value of an effect, without identities. */
  datatype EffectValue = EffectValue(
    scalars: Scalars,
    labels: Option<map<string, string>>,
    annotations: Option<map<string, string>>,
    response: Option<Option<Bytes>>,
    leaseExpiresAt: Option<int>,
    createdAt: Option<int>,
    updatedAt: Option<int>)

  /** What a pointer points to. */
  ghost function Target(p: object?): set<object> {
    if p == null then {} else {p}
  }

  /** The copy of a response whose raw bytes are empty but not nil has nil raw bytes: that is what append does. */
  function CopyOfResponse(response: Option<Option<Bytes>>): Option<Option<Bytes>> {
    if response == Some(Some([])) then Some(None) else response
  }

  function CopyOf(v: EffectValue): EffectValue {
    v.(response := CopyOfResponse(v.response))
  }

  /** An effect copied into itself: its response is replaced before its raw bytes are read. */
  function SelfCopyOf(v: EffectValue): EffectValue {
    v.(response := if v.response.Some? then Some(None) else None)
  }

  const ZERO_SCALARS := Scalars("", "", "", "", "", EffectSpec("", "", "", "", "", "", ""), "", "", "", 0, 0)

  /** new(ExternalEffect). */
  const ZERO := EffectValue(ZERO_SCALARS, None, None, None, None, None, None)

  ghost function MapValue(m: StringMap?): Option<map<string, string>>
    reads m
  {
    if m == null then None else Some(m.entries)
  }

  ghost function TimeValue(t: Time?): Option<int>
    reads t
  {
    if t == null then None else Some(t.at)
  }

  class ExternalEffect {
    var scalars: Scalars
    var labels: StringMap?
    var annotations: StringMap?
    var response: RawJSON?
    var leaseExpiresAt: Time?
    var createdAt: Time?
    var updatedAt: Time?

    /** The zero value, as new(ExternalEffect) makes it. */
    constructor ()
      ensures Value() == ZERO && Parts() == {}
    {
      scalars := ZERO_SCALARS;
      labels, annotations, response := null, null, null;
      leaseExpiresAt, createdAt, updatedAt := null, null, null;
    }

    /** The mutable objects reachable from the effect, itself excepted. */
    ghost function Parts(): set<object>
      reads this, response
    {
      Target(labels) + Target(annotations) + Target(response)
      + Target(leaseExpiresAt) + Target(createdAt) + Target(updatedAt)
      + (if response != null then Target(response.raw) else {})
    }

    ghost function ResponseValue(): Option<Option<Bytes>>
      reads this, response, if response != null then {response.raw} else {}
    {
      if response == null then None
      else Some(if response.raw == null then None else Some(response.raw[..]))
    }

    ghost function Value(): EffectValue
      reads this, Parts()
    {
      EffectValue(scalars, MapValue(labels), MapValue(annotations), ResponseValue(),
                  TimeValue(leaseExpiresAt), TimeValue(createdAt), TimeValue(updatedAt))
    }

    lemma PartIsAField(o: object)
      requires o in Parts()
      ensures || o == labels || o == annotations || o == response || o == leaseExpiresAt
              || o == createdAt || o == updatedAt || (response != null && o == response.raw)
    {
    }

    /** append([]byte(nil), raw...): new bytes, or nil when there are none. */
    static method CopyBytes(raw: array<byte>) returns (copy: array?<byte>)
      ensures copy != null ==> fresh(copy)
      ensures (if copy == null then None else Some(copy[..])) == if raw[..] == [] then None else Some(raw[..])
    {
      copy := null;
      if raw.Length > 0 {
        copy := new byte[raw.Length](i requires 0 <= i < raw.Length reads raw => raw[i]);
        assert copy[..] == raw[..];
      }
    }

    /** The response: a new object, filled from the receiver's response as it then is. */
    method CopyResponseInto(out: ExternalEffect)
      requires out.response == response
      modifies out`response
      ensures out.response != null ==> fresh(out.response) && (out.response.raw != null ==> fresh(out.response.raw))
      ensures out.ResponseValue() ==
              if out != this then CopyOfResponse(old(ResponseValue()))
              else if old(response) != null then Some(None) else None
    {
      if response == null {
        return;
      }
      ghost var was := ResponseValue();
      out.response := new RawJSON(null);
      if response.raw != null {
        assert was == Some(Some(response.raw[..]));
        var bytes := CopyBytes(response.raw);
        out.response.raw := bytes;
      }
    }

    /** The library's copy of a map of strings. */
    static method CopyMap(m: StringMap?) returns (copy: StringMap?)
      ensures MapValue(copy) == MapValue(m) && (copy != null ==> fresh(copy))
    {
      copy := null;
      if m != null {
        copy := new StringMap(m.entries);
      }
    }

    static method CopyTime(t: Time?) returns (copy: Time?)
      ensures TimeValue(copy) == TimeValue(t) && (copy != null ==> fresh(copy))
    {
      copy := null;
      if t != null {
        copy := t.DeepCopy();
      }
    }

    /** Every pointer of this effect is nil or points to an object allocated since the method began. */
    twostate predicate OnlyNewParts()
      reads this, response
    {
      && (labels != null ==> fresh(labels)) && (annotations != null ==> fresh(annotations))
      && (response != null ==> fresh(response) && (response.raw != null ==> fresh(response.raw)))
      && (leaseExpiresAt != null ==> fresh(leaseExpiresAt))
      && (createdAt != null ==> fresh(createdAt)) && (updatedAt != null ==> fresh(updatedAt))
    }

    /** ObjectMeta's DeepCopyInto. */
    method CopyMetaInto(out: ExternalEffect)
      modifies out`labels, out`annotations
      ensures (out.labels != null ==> fresh(out.labels)) && (out.annotations != null ==> fresh(out.annotations))
      ensures MapValue(out.labels) == old(MapValue(labels))
      ensures MapValue(out.annotations) == old(MapValue(annotations))
    {
      var newLabels := CopyMap(labels);
      var newAnnotations := CopyMap(annotations);
      out.labels, out.annotations := newLabels, newAnnotations;
    }

    /** The lease time and deepCopyControlRecordMutationStatus. */
    method CopyTimesInto(out: ExternalEffect)
      modifies out`leaseExpiresAt, out`createdAt, out`updatedAt
      ensures out.leaseExpiresAt != null ==> fresh(out.leaseExpiresAt)
      ensures (out.createdAt != null ==> fresh(out.createdAt)) && (out.updatedAt != null ==> fresh(out.updatedAt))
      ensures TimeValue(out.leaseExpiresAt) == old(TimeValue(leaseExpiresAt))
      ensures TimeValue(out.createdAt) == old(TimeValue(createdAt))
      ensures TimeValue(out.updatedAt) == old(TimeValue(updatedAt))
    {
      var lease := CopyTime(leaseExpiresAt);
      var created := CopyTime(createdAt);
      var updated := CopyTime(updatedAt);
      out.leaseExpiresAt, out.createdAt, out.updatedAt := lease, created, updated;
    }

    /** The pointers of `out` are those of this effect. */
    ghost predicate SharedBy(out: ExternalEffect)
      reads this, out
    {
      && out.labels == labels && out.annotations == annotations && out.response == response
      && out.leaseExpiresAt == leaseExpiresAt && out.createdAt == createdAt && out.updatedAt == updatedAt
    }

    /** What a copy's pointers lead to, in terms of the original's. */
    twostate predicate PointersCopied(new out: ExternalEffect)
      reads out, Target(out.labels), Target(out.annotations), Target(out.response)
      reads if out.response != null then Target(out.response.raw) else {}
      reads Target(out.leaseExpiresAt), Target(out.createdAt), Target(out.updatedAt)
    {
      && MapValue(out.labels) == old(MapValue(labels))
      && MapValue(out.annotations) == old(MapValue(annotations))
      && out.ResponseValue() == (if out != this then CopyOfResponse(old(ResponseValue()))
                                 else if old(response) != null then Some(None) else None)
      && TimeValue(out.leaseExpiresAt) == old(TimeValue(leaseExpiresAt))
      && TimeValue(out.createdAt) == old(TimeValue(createdAt))
      && TimeValue(out.updatedAt) == old(TimeValue(updatedAt))
    }

    /** Replace each pointer that is not nil. */
    method CopyPointersInto(out: ExternalEffect)
      requires SharedBy(out)
      modifies out`labels, out`annotations, out`response, out`leaseExpiresAt, out`createdAt, out`updatedAt
      ensures out.OnlyNewParts() && PointersCopied(out)
    {
      CopyMetaInto(out);
      CopyResponseInto(out);
      CopyTimesInto(out);
    }

    /** Assign the whole struct, sharing every pointer, and then replace the pointers. */
    method CopyFieldsInto(out: ExternalEffect)
      modifies out
      ensures out.OnlyNewParts() && PointersCopied(out)
      ensures out.scalars == old(scalars)
    {
      out.scalars, out.response := scalars, response;
      out.labels, out.annotations := labels, annotations;
      out.leaseExpiresAt, out.createdAt, out.updatedAt := leaseExpiresAt, createdAt, updatedAt;
      CopyPointersInto(out);
    }

    /**
     DeepCopyInto: everything mutable in the copy is new, and another original is left alone. An effect copied
     into itself loses the bytes of its response.
     */
    method DeepCopyInto(out: ExternalEffect)
      modifies out
      ensures out.Value() == if out != this then CopyOf(old(Value())) else SelfCopyOf(old(Value()))
      ensures fresh(out.Parts())
    {
      hide Parts, Target;
      CopyFieldsInto(out);
      forall o | o in out.Parts()
        ensures fresh(o)
      {
        out.PartIsAField(o);
      }
    }

    /** No effect and no list is part of an effect. */
    lemma NotAPart(o: object)
      requires o is ExternalEffect || o is ExternalEffectList
      ensures o !in Parts()
    {
      if o in Parts() {
        PartIsAField(o);
      }
    }

    /** An effect none of whose objects changed has kept its value. */
    twostate lemma Untouched()
      requires unchanged(this) && forall o: object :: old(allocated(o)) && o in old(Parts()) ==> unchanged(o)
      ensures Value() == old(Value()) && Parts() == old(Parts())
    {
      assert old(Target(labels) <= Parts() && Target(annotations) <= Parts() && Target(response) <= Parts());
      assert old(Target(leaseExpiresAt) <= Parts() && Target(createdAt) <= Parts() && Target(updatedAt) <= Parts());
      assert labels != null ==> unchanged(labels);
      assert annotations != null ==> unchanged(annotations);
      assert response != null ==> unchanged(response);
      if response != null && response.raw != null {
        assert old(Target(response.raw) <= Parts());
        assert unchanged(response.raw);
      }
      assert leaseExpiresAt != null ==> unchanged(leaseExpiresAt);
      assert createdAt != null ==> unchanged(createdAt);
      assert updatedAt != null ==> unchanged(updatedAt);
    }

    /** DeepCopy. */
    method DeepCopy() returns (copy: ExternalEffect)
      ensures fresh(copy) && fresh(copy.Parts())
      ensures copy.Value() == CopyOf(Value())
    {
      copy := new ExternalEffect();
      DeepCopyInto(copy);
    }
  }

  /** Any writes at all to the objects of an effect. */
  method Scribble(effect: ExternalEffect)
    modifies effect, effect.Parts()
  {
    var text: map<string, string>, at: int, k: int, b: byte := *, *, *, *;
    if effect.response != null {
      var raw := effect.response.raw;
      if raw != null && 0 <= k < raw.Length && 0 <= b < 256 {
        raw[k] := b;
      }
    }
    if effect.labels != null {
      effect.labels.entries := text;
    }
    if effect.leaseExpiresAt != null {
      effect.leaseExpiresAt.at := at;
    }
    effect.annotations, effect.createdAt, effect.updatedAt := null, null, null;
  }

  /** Whatever is written through a copy, the original does not notice. */
  method ScribbleOnCopy(original: ExternalEffect) returns (copy: ExternalEffect)
    ensures fresh(copy)
    ensures original.Value() == old(original.Value())
  {
    hide ExternalEffect.Value, ExternalEffect.Parts, CopyOf;
    copy := original.DeepCopy();
    Scribble(copy);
    original.Untouched();
  }

  /**
   The copy equals the original unless the original's response is empty but not nil; an effect survives being
   copied into itself unless its response has bytes that are not nil.
   */
  lemma CopyIsEqual(v: EffectValue)
    ensures CopyOf(v) == v <==> v.response != Some(Some([]))
    ensures SelfCopyOf(v) == v <==> !(v.response.Some? && v.response.value.Some?)
  {
  }

  // ---------- lists ----------

  /** No two items are one object or share a part. */
  ghost predicate Apart(items: seq<ExternalEffect>)
    reads items, set i | 0 <= i < |items| && items[i].response != null :: items[i].response
  {
    forall i, j :: 0 <= i < j < |items| ==> items[i] != items[j] && items[i].Parts() !! items[j].Parts()
  }

  class ExternalEffectList {
    var apiVersion: string
    var kind: string
    var resourceVersion: string
    var items: Option<seq<ExternalEffect>>

    constructor ()
      ensures items == None
    {
      apiVersion, kind, resourceVersion, items := "", "", "", None;
    }

    /** make([]ExternalEffect, n). */
    static method MakeItems(n: nat) returns (slots: seq<ExternalEffect>)
      ensures |slots| == n
      ensures forall i :: 0 <= i < n ==> fresh(slots[i]) && slots[i].Value() == ZERO && slots[i].Parts() == {}
      ensures forall i, j :: 0 <= i < j < n ==> slots[i] != slots[j]
    {
      hide ExternalEffect.Value, ExternalEffect.Parts;
      slots := [];
      for k := 0 to n
        invariant |slots| == k
        invariant forall i :: 0 <= i < k ==> fresh(slots[i]) && slots[i].Value() == ZERO && slots[i].Parts() == {}
        invariant forall i, j :: 0 <= i < j < k ==> slots[i] != slots[j]
      {
        label before:
        var slot := new ExternalEffect();
        forall i | 0 <= i < k
          ensures slots[i].Value() == old@before(slots[i].Value()) && slots[i].Parts() == old@before(slots[i].Parts())
        {
          slots[i].Untouched@before();
        }
        slots := slots + [slot];
      }
    }

    /** The loop over the items; the two slices are one when a list is copied into itself. */
    static method CopyItems(source: seq<ExternalEffect>, slots: seq<ExternalEffect>)
      requires |slots| == |source| && forall i, j :: 0 <= i < j < |slots| ==> slots[i] != slots[j]
      requires source == slots || forall i, j :: 0 <= i < |source| && 0 <= j < |slots| ==> source[i] != slots[j]
      modifies slots
      ensures forall i :: 0 <= i < |slots| ==> fresh(slots[i].Parts())
      ensures forall i :: 0 <= i < |slots| ==>
                slots[i].Value() == if source != slots then CopyOf(old(source[i].Value()))
                                    else SelfCopyOf(old(source[i].Value()))
      ensures Apart(slots)
    {
      hide ExternalEffect.Value, ExternalEffect.Parts, CopyOf, SelfCopyOf;
      forall i, j | 0 <= i < |source| && 0 <= j < |slots|
        ensures slots[j] !in source[i].Parts()
      {
        source[i].NotAPart(slots[j]);
      }
      for i := 0 to |source|
        invariant forall j :: 0 <= j < i ==> fresh(slots[j].Parts())
        invariant forall j :: 0 <= j < i ==>
                    slots[j].Value() == if source != slots then CopyOf(old(source[j].Value()))
                                        else SelfCopyOf(old(source[j].Value()))
        invariant forall j :: i <= j < |slots| ==> unchanged(slots[j])
        invariant forall j, k :: 0 <= j < k < i ==> slots[j].Parts() !! slots[k].Parts()
      {
        label before:
        source[i].Untouched();
        forall j | 0 <= j < i
          ensures slots[i] !in slots[j].Parts()
        {
          slots[j].NotAPart(slots[i]);
        }
        forall j, o | 0 <= j < i && o in slots[j].Parts()
          ensures allocated(o)
        {
          slots[j].PartIsAField(o);
        }
        source[i].DeepCopyInto(slots[i]);
        forall j | 0 <= j < i
          ensures slots[j].Value() == old@before(slots[j].Value()) && slots[j].Parts() == old@before(slots[j].Parts())
        {
          slots[j].Untouched@before();
        }
      }
    }

    /**
     DeepCopyInto: any number of items, each copied into new objects of its own. A list copied into itself
     keeps its length and loses its items.
     */
    method DeepCopyInto(out: ExternalEffectList)
      modifies out
      ensures out.apiVersion == old(apiVersion) && out.kind == old(kind)
      ensures out.resourceVersion == old(resourceVersion)
      ensures out.items.Some? <==> old(items).Some?
      ensures out.items.Some? ==>
                && |out.items.value| == |old(items).value| && Apart(out.items.value)
                && forall i :: 0 <= i < |out.items.value| ==>
                     && fresh(out.items.value[i]) && fresh(out.items.value[i].Parts())
                     && out.items.value[i].Value() ==
                        if out != this then CopyOf(old(items.value[i].Value())) else ZERO
    {
      hide ExternalEffect.Value, ExternalEffect.Parts, CopyOf, Apart;
      ghost var originals := if items.Some? then items.value else [];
      forall i | 0 <= i < |originals|
        ensures out !in originals[i].Parts()
      {
        originals[i].NotAPart(out);
      }
      out.apiVersion, out.kind, out.resourceVersion, out.items := apiVersion, kind, resourceVersion, items;
      if items.Some? {
        var slots := MakeItems(|items.value|);
        forall i | 0 <= i < |slots|
          ensures out !in slots[i].Parts()
        {
          slots[i].NotAPart(out);
        }
        label made:
        out.items := Some(slots);
        forall i | 0 <= i < |slots|
          ensures slots[i].Value() == ZERO
        {
          slots[i].Untouched@made();
        }
        forall i | 0 <= i < |originals|
          ensures originals[i].Value() == old(originals[i].Value())
        {
          originals[i].Untouched();
        }
        assert SelfCopyOf(ZERO) == ZERO;
        CopyItems(items.value, slots);
      }
    }

    /** DeepCopy. */
    method DeepCopy() returns (copy: ExternalEffectList)
      ensures fresh(copy) && (copy.items.Some? <==> items.Some?)
      ensures copy.apiVersion == apiVersion && copy.kind == kind && copy.resourceVersion == resourceVersion
      ensures items.Some? ==>
                && |copy.items.value| == |items.value| && Apart(copy.items.value)
                && forall i :: 0 <= i < |items.value| ==>
                     && fresh(copy.items.value[i]) && fresh(copy.items.value[i].Parts())
                     && copy.items.value[i].Value() == CopyOf(old(items.value[i].Value()))
    {
      hide ExternalEffect.Value, ExternalEffect.Parts, CopyOf, Apart;
      copy := new ExternalEffectList();
      if items.Some? {
        forall i | 0 <= i < |items.value|
          ensures items.value[i].Value() == old(items.value[i].Value())
        {
          items.value[i].Untouched();
        }
      }
      DeepCopyInto(copy);
    }

    /** The mutable objects of the list, itself excepted. */
    ghost function Reach(): set<object>
      reads this, if items.Some? then set e | e in items.value else {}
      reads if items.Some? then set e: ExternalEffect | e in items.value && e.response != null :: e.response else {}
    {
      if items.None? then {}
      else
        (set e | e in items.value :: e as object)
        + (set e: ExternalEffect, o | e in items.value && o in e.Parts() :: o)
    }
  }

  /** Any writes at all to the objects of a list. */
  method ScribbleOnList(list: ExternalEffectList)
    modifies list, list.Reach()
  {
    var k: int := *;
    if list.items.Some? && 0 <= k < |list.items.value| {
      assert list.items.value[k] in list.items.value;
      Scribble(list.items.value[k]);
    }
    list.kind, list.items := "", None;
  }

  /** Whatever is written through the copy of a list, the original list and its items do not notice. */
  method ScribbleOnListCopy(original: ExternalEffectList) returns (copy: ExternalEffectList)
    ensures fresh(copy) && unchanged(original)
    ensures original.items.Some? ==>
              forall i :: 0 <= i < |original.items.value| ==>
                original.items.value[i].Value() == old(original.items.value[i].Value())
  {
    hide ExternalEffect.Value, ExternalEffect.Parts, CopyOf, Apart;
    copy := original.DeepCopy();
    assert fresh(copy.Reach());
    ScribbleOnList(copy);
    if original.items.Some? {
      forall i | 0 <= i < |original.items.value|
        ensures original.items.value[i].Value() == old(original.items.value[i].Value())
      {
        original.items.value[i].Untouched();
      }
    }
  }
}
