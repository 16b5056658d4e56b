/** A plain queue: records read in order through each consumer's cursor. */
module PlainQueues {
  import opened Wrappers
  import opened Json
  import opened QueueLines
  import opened Sequences

  /** The indexes below `k` of the records a claim hands out, in order. */
  function ClaimableBelow(log: seq<Json>, claimable: Json -> bool, k: nat): (indexes: seq<nat>)
    requires k <= |log|
    ensures forall i :: i in indexes <==> 0 <= i < k && claimable(log[i])
  {
    if k == 0 then []
    else
      var earlier := ClaimableBelow(log, claimable, k - 1);
      if claimable(log[k - 1]) then earlier + [k - 1] else earlier
  }

  /** Each record at most once, in order. */
  lemma {:induction false} ClaimableAscending(log: seq<Json>, claimable: Json -> bool, k: nat)
    requires k <= |log|
    ensures Ascending(ClaimableBelow(log, claimable, k))
  {
    if k != 0 {
      var earlier := ClaimableBelow(log, claimable, k - 1);
      ClaimableAscending(log, claimable, k - 1);
      forall i | 0 <= i < |earlier|
        ensures earlier[i] < k - 1
      {
        assert earlier[i] in earlier;
      }
      assert Ascending(earlier + [k - 1]);
    }
  }

  lemma {:induction false} ClaimableStays(log: seq<Json>, record: Json, claimable: Json -> bool, k: nat)
    requires k <= |log|
    ensures ClaimableBelow(log + [record], claimable, k) == ClaimableBelow(log, claimable, k)
  {
    if k != 0 {
      ClaimableStays(log, record, claimable, k - 1);
    }
  }

  lemma NextClaimable(log: seq<Json>, claimable: Json -> bool, at: nat)
    requires at < |log| && claimable(log[at])
    ensures ClaimableBelow(log, claimable, at + 1) == ClaimableBelow(log, claimable, at) + [at]
    ensures at !in ClaimableBelow(log, claimable, at)
  {
  }

  class PlainQueue {
    const numbered: bool
    /** Which records a claim hands out: every one, where nothing is declared. */
    const claimable: Json -> bool
    var log: seq<Json>
    /** How many records each consumer has read past. */
    var cursors: map<string, nat>
    /** The indexes of the records each consumer was handed, in order. */
    ghost var handed: map<string, seq<nat>>

    function Cursor(consumer: string): nat
      reads this`cursors
    {
      if consumer in cursors then cursors[consumer] else 0
    }

    ghost function Handed(consumer: string): seq<nat>
      reads this`handed
    {
      if consumer in handed then handed[consumer] else []
    }

    /** Every consumer was handed exactly the claimable records below its cursor,
        each once and in order; and a numbered record's id is its index. */
    ghost predicate Valid()
      reads this
    {
      && (forall c :: Cursor(c) <= |log| && Handed(c) == ClaimableBelow(log, claimable, Cursor(c)))
      && (numbered ==> forall i | 0 <= i < |log| :: log[i].Obj? && Get(log[i].fields, "id") == Some(Number(i)))
    }

    constructor (numbered: bool, claimable: Json -> bool)
      ensures Valid() && log == []
    {
      this.numbered, this.claimable, log, cursors, handed := numbered, claimable, [], map[], map[];
    }

    /** Append a record, numbered by how many are before it where the queue
        numbers; refused where it must be numbered and is no object. */
    method Push(record: Json) returns (pushed: Option<Json>)
      requires Valid()
      modifies this`log
      ensures Valid()
      ensures pushed.None? <==> numbered && !record.Obj?
      ensures log == if pushed.None? then old(log) else old(log) + [pushed.value]
      ensures !numbered ==> pushed == Some(record)
      ensures numbered && pushed.Some? ==>
                && pushed.value.Obj?
                && Get(pushed.value.fields, "id") == Some(Number(|old(log)|))
                && WithoutKey(pushed.value.fields, "id") == WithoutKey(record.fields, "id")
    {
      hide WithId, WithoutKey, ClaimableBelow;
      var written := record;
      if numbered {
        if !record.Obj? {
          return None;
        }
        written := Obj(WithId(record.fields, |log|));
        WithIdKeepsTheRest(record.fields, |log|);
      }
      forall c
        ensures ClaimableBelow(log + [written], claimable, Cursor(c)) == ClaimableBelow(log, claimable, Cursor(c))
      {
        ClaimableStays(log, written, claimable, Cursor(c));
      }
      log := log + [written];
      pushed := Some(written);
    }

    /** The first record from an index on that a claim hands out; the end where there
        is none. */
    method FirstFrom(start: nat) returns (at: nat)
      requires start <= |log|
      ensures start <= at <= |log| && (at < |log| ==> claimable(log[at]))
      ensures forall i | start <= i < at :: !claimable(log[i])
      ensures ClaimableBelow(log, claimable, at) == ClaimableBelow(log, claimable, start)
    {
      at := start;
      while at < |log| && !claimable(log[at])
        invariant start <= at <= |log|
        invariant forall i | start <= i < at :: !claimable(log[i])
        invariant ClaimableBelow(log, claimable, at) == ClaimableBelow(log, claimable, start)
      {
        at := at + 1;
      }
    }

    /** Hand `consumer` the first record after its cursor that the queue's
        declaration admits, and move the cursor just past it. */
    method Claim(consumer: string) returns (claimed: Option<nat>)
      requires Valid()
      modifies this`cursors, this`handed
      ensures Valid()
      ensures claimed.None? ==>
                && cursors == old(cursors)
                && forall i | old(Cursor(consumer)) <= i < |log| :: !claimable(log[i])
      ensures claimed.Some? ==>
                && old(Cursor(consumer)) <= claimed.value < |log| && claimable(log[claimed.value])
                && Handed(consumer) == old(Handed(consumer)) + [claimed.value]
                && claimed.value !in old(Handed(consumer))
      ensures forall c | c != consumer :: Handed(c) == old(Handed(c)) && Cursor(c) == old(Cursor(c))
    {
      hide ClaimableBelow;
      var at := FirstFrom(Cursor(consumer));
      if at == |log| {
        return None;
      }
      NextClaimable(log, claimable, at);
      ghost var before := Handed(consumer);
      cursors := cursors[consumer := at + 1];
      handed := handed[consumer := before + [at]];
      forall c
        ensures Cursor(c) <= |log| && Handed(c) == ClaimableBelow(log, claimable, Cursor(c))
      {
        if c != consumer {
          assert Cursor(c) == old(Cursor(c)) && Handed(c) == old(Handed(c));
        }
      }
      claimed := Some(at);
    }

    /** No consumer is ever handed one record twice, or out of order. */
    lemma HandedOnce(consumer: string)
      requires Valid()
      ensures Ascending(Handed(consumer))
    {
      ClaimableAscending(log, claimable, Cursor(consumer));
    }
  }

  /** `fields` with an id: in place where there is one, first where there is none. */
  function WithId(fields: Fields, id: nat): (numbered: Fields)
    ensures Get(numbered, "id") == Some(Number(id))
  {
    if Get(fields, "id").Some? then SetField(fields, "id", Number(id))
    else [("id", Number(id))] + fields
  }

  lemma {:induction false} SetFieldKeepsTheRest(fields: Fields, key: string, value: Json)
    ensures WithoutKey(SetField(fields, key, value), key) == WithoutKey(fields, key)
  {
    if fields != [] && fields[0].0 != key {
      SetFieldKeepsTheRest(fields[1..], key, value);
    }
  }

  /** Numbering a record leaves its other fields as they were, in their order. */
  lemma WithIdKeepsTheRest(fields: Fields, id: nat)
    ensures WithoutKey(WithId(fields, id), "id") == WithoutKey(fields, "id")
  {
    SetFieldKeepsTheRest(fields, "id", Number(id));
    assert ([("id", Number(id))] + fields)[1..] == fields;
  }

  /** And its keys are the record's own, in their order, an id coming first where there was
      none. */
  lemma {:induction false} SetFieldKeys(fields: Fields, key: string, value: Json)
    requires Get(fields, key).Some?
    ensures var set' := SetField(fields, key, value);
            |set'| == |fields| && forall i | 0 <= i < |fields| :: set'[i].0 == fields[i].0
  {
    if fields[0].0 != key {
      SetFieldKeys(fields[1..], key, value);
    }
  }

  lemma WithIdKeys(fields: Fields, id: nat)
    ensures var numbered := WithId(fields, id);
            if exists i :: 0 <= i < |fields| && fields[i].0 == "id" then
              |numbered| == |fields| && forall i | 0 <= i < |fields| :: numbered[i].0 == fields[i].0
            else numbered == [("id", Number(id))] + fields
  {
    if Get(fields, "id").Some? {
      SetFieldKeys(fields, "id", Number(id));
    }
  }
}
