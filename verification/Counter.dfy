/** The per-run token counter (common/sdk/sdk.go and scripts/apply_delta.lua): each operation key
    is applied at most once. */
module Counter {
  import opened Wrappers
  import opened WorkflowIR

  /** Operation keys of one run. A consume key names the node only, an emit key carries a fresh id. */
  datatype OpKey = Consume(node: NodeId) | Emit(node: NodeId, id: nat)

  datatype Counter = Counter(value: int, applied: set<OpKey>)

  datatype Op = Op(key: OpKey, delta: int)

  function Apply(c: Counter, op: Op): Counter {
    if op.key in c.applied then c else Counter(c.value + op.delta, c.applied + {op.key})
  }

  ghost function ApplyAll(c: Counter, ops: seq<Op>): Counter {
    if ops == [] then c else Apply(ApplyAll(c, ops[..|ops| - 1]), ops[|ops| - 1])
  }

  // ---- The counter is the initial value plus the deltas of the distinct keys

  ghost function Total(ks: set<OpKey>, delta: OpKey -> int): int {
    if ks == {} then 0 else
      var k :| k in ks;
      delta(k) + Total(ks - {k}, delta)
  }

  lemma {:induction false} TotalRemove(ks: set<OpKey>, delta: OpKey -> int, k: OpKey)
    requires k in ks
    ensures Total(ks, delta) == delta(k) + Total(ks - {k}, delta)
  {
    var j :| j in ks && Total(ks, delta) == delta(j) + Total(ks - {j}, delta);
    if j != k {
      TotalRemove(ks - {j}, delta, k);
      TotalRemove(ks - {k}, delta, j);
      assert ks - {j} - {k} == ks - {k} - {j};
    }
  }

  ghost function Keys(ops: seq<Op>): set<OpKey> {
    set op | op in ops :: op.key
  }

  /** Every operation on a key carries the same delta: -1 for consume, the fan-out for an emit. */
  ghost predicate Consistent(ops: seq<Op>, delta: OpKey -> int) {
    forall op :: op in ops ==> op.delta == delta(op.key)
  }

  lemma {:induction false} CounterIsSumOfDistinctDeltas(c: Counter, ops: seq<Op>, delta: OpKey -> int)
    requires Consistent(ops, delta)
    ensures ApplyAll(c, ops).applied == c.applied + Keys(ops)
    ensures ApplyAll(c, ops).value == c.value + Total(Keys(ops) - c.applied, delta)
  {
    if ops == [] {
      assert Keys(ops) - c.applied == {};
    } else {
      var init, last := ops[..|ops| - 1], ops[|ops| - 1];
      assert ops == init + [last];
      CounterIsSumOfDistinctDeltas(c, init, delta);
      assert Keys(ops) == Keys(init) + {last.key};
      if last.key in c.applied + Keys(init) {
        assert Keys(ops) - c.applied == Keys(init) - c.applied;
      } else {
        TotalRemove(Keys(ops) - c.applied, delta, last.key);
        assert Keys(ops) - c.applied - {last.key} == Keys(init) - c.applied;
      }
    }
  }

  /** Reordering and repeating operations changes nothing. */
  lemma OrderAndRepetitionIrrelevant(c: Counter, ops: seq<Op>, ops': seq<Op>, delta: OpKey -> int)
    requires Consistent(ops, delta) && Consistent(ops', delta) && Keys(ops) == Keys(ops')
    ensures ApplyAll(c, ops) == ApplyAll(c, ops')
  {
    CounterIsSumOfDistinctDeltas(c, ops, delta);
    CounterIsSumOfDistinctDeltas(c, ops', delta);
  }

  // ---- The store

  /** One run's keys in Redis; a missing counter key reads as zero. */
  class Sdk {
    var counter: Option<int>
    var applied: set<OpKey>
    var zeroEvents: nat

    constructor ()
      ensures counter == None && applied == {} && zeroEvents == 0
    {
      counter, applied, zeroEvents := None, {}, 0;
    }

    ghost function State(): Counter
      reads this
    {
      Counter(if counter.Some? then counter.value else 0, applied)
    }

    method InitializeCounter(value: int)
      modifies this
      ensures State() == Counter(value, old(applied)) && counter.Some? && zeroEvents == old(zeroEvents)
    {
      counter := Some(value);
    }

    method GetCounter() returns (value: int)
      ensures value == State().value
    {
      value := if counter.Some? then counter.value else 0;
    }

    /** The Lua script: `hitZero` is also set when an already applied key finds no counter. */
    method ApplyDelta(key: OpKey, delta: int) returns (value: int, changed: bool, hitZero: bool)
      modifies this
      ensures State() == Apply(old(State()), Op(key, delta))
      ensures value == State().value && (changed <==> key !in old(applied))
      ensures hitZero <==> if changed then value == 0 else old(counter).None?
      ensures zeroEvents == old(zeroEvents) + (if changed && value == 0 then 1 else 0)
    {
      if key in applied {
        if counter.Some? { return counter.value, false, false; }
        return 0, false, true;
      }
      applied := applied + {key};
      counter := Some((if counter.Some? then counter.value else 0) + delta);
      value := counter.value;
      if value == 0 {
        zeroEvents := zeroEvents + 1;
        return value, true, true;
      }
      return value, true, false;
    }

    method ConsumeToken(node: NodeId)
      modifies this
      ensures State() == Apply(old(State()), Op(Consume(node), -1))
    {
      var value, changed, hitZero := ApplyDelta(Consume(node), -1);
    }

    /** `id` stands for the random id drawn for this emission. */
    method EmitTokens(from: NodeId, to: seq<NodeId>, id: nat)
      modifies this
      ensures State() == if to == [] then old(State()) else Apply(old(State()), Op(Emit(from, id), |to|))
    {
      if |to| == 0 { return; }
      var value, changed, hitZero := ApplyDelta(Emit(from, id), |to|);
    }
  }
}
