/** The method registry: rpc_hash's set/get/has/del on a khash table keyed by C strings, given by their bytes. */
module RpcHash {
  import KHash
  import MsgPack
  import opened Layout
  import opened BucketFlags
  import opened Probing

  type Key = seq<MsgPack.byte>

  datatype Option<T> = None | Some(value: T)

  datatype Op<V> = Set(key: Key, val: V) | Get(key: Key) | Has(key: Key) | Del(key: Key) | Clear

  datatype Answer<V> = Done | Got(val: Option<V>) | Has(has: bool)

  /** The registry is a map: what an operation makes of one, and what it answers. */
  function Applied<V>(m: map<Key, V>, op: Op<V>): map<Key, V> {
    match op
    case Set(k, v) => m[k := v]
    case Del(k) => m - {k}
    case Clear => map[]
    case _ => m
  }

  function Answered<V>(m: map<Key, V>, op: Op<V>): Answer<V> {
    match op
    case Get(k) => Got(if k in m then Some(m[k]) else None)
    case Has(k) => Answer.Has(k in m)
    case _ => Done
  }

  function AppliedAll<V>(m: map<Key, V>, ops: seq<Op<V>>): map<Key, V> {
    if ops == [] then m else Applied(AppliedAll(m, ops[..|ops| - 1]), ops[|ops| - 1])
  }

  class Hash<V(0)> {
    const table: KHash.Table<Key, V>

    ghost predicate Valid()
      reads this, table, table.keys, table.vals, table.flags, table.flags.words
    {
      table.Valid()
    }

    ghost function Contents(): map<Key, V>
      reads this, table, table.keys, table.vals, table.flags, table.flags.words
      requires Valid()
    {
      table.Model()
    }

    ghost function Repr(): set<object>
      reads this, table
    {
      {this} + table.Repr()
    }

    /** `rpc_hash_new`. */
    constructor (hash: Key -> nat)
      ensures Valid() && fresh(Repr()) && Contents() == map[]
    {
      table := new KHash.Table(hash);
    }

    method Set(key: Key, val: V)
      requires Valid()
      modifies Repr()
      ensures Valid() && fresh(Repr() - old(Repr()))
      ensures Contents() == old(Contents())[key := val]
    {
      hide Placed, Packs, LiveSet, FilledSet, Values, IsPow2;
      var x, ret;
      ghost var d, e;
      x, ret, d, e := table.Put(key);
      table.SetValue(x, val);
    }

    method Get(key: Key) returns (val: Option<V>)
      requires Valid()
      ensures val == if key in Contents() then Some(Contents()[key]) else None
    {
      var x := table.Get(key);
      if x == table.nBuckets { return None; }
      return Some(table.vals[x]);
    }

    method Has(key: Key) returns (has: bool)
      requires Valid()
      ensures has <==> key in Contents()
    {
      if table.size == 0 {
        table.SizeIsCount();
        return false;
      }
      var x := table.Get(key);
      return x != table.nBuckets;
    }

    method Del(key: Key)
      requires Valid()
      modifies Repr()
      ensures Valid() && Repr() == old(Repr()) && Contents() == old(Contents()) - {key}
    {
      hide Placed, Packs, LiveSet, FilledSet, Values, IsPow2;
      var x := table.Get(key);
      table.Del(x);
    }

    method Clear()
      requires Valid()
      modifies Repr()
      ensures Valid() && Repr() == old(Repr()) && Contents() == map[]
    {
      table.Clear();
    }

    method Do(op: Op<V>) returns (a: Answer<V>)
      requires Valid()
      modifies Repr()
      ensures Valid() && fresh(Repr() - old(Repr()))
      ensures Contents() == Applied(old(Contents()), op) && a == Answered(old(Contents()), op)
    {
      hide Placed, Packs, LiveSet, FilledSet, Values, IsPow2;
      a := Done;
      match op
      case Set(k, v) => Set(k, v);
      case Get(k) =>
        var v := Get(k);
        a := Got(v);
      case Has(k) =>
        var has := Has(k);
        a := Answer.Has(has);
      case Del(k) => Del(k);
      case Clear => Clear();
    }

    /**
     * Over every run of operations, with whatever growing and shrinking they cause, the registry behaves like a map.
     */
    method Run(ops: seq<Op<V>>) returns (answers: seq<Answer<V>>)
      requires Valid()
      modifies Repr()
      ensures Valid() && fresh(Repr() - old(Repr()))
      ensures Contents() == AppliedAll(old(Contents()), ops) && |answers| == |ops|
      ensures forall i: nat :: i < |ops| ==> answers[i] == Answered(AppliedAll(old(Contents()), ops[..i]), ops[i])
    {
      hide Placed, Packs, LiveSet, FilledSet, Values, IsPow2, Applied, Answered, Hash.Valid;
      answers := [];
      ghost var m := Contents();
      for i := 0 to |ops|
        invariant Valid() && fresh(Repr() - old(Repr())) && |answers| == i
        invariant Contents() == AppliedAll(m, ops[..i])
        invariant forall j: nat :: j < i ==> answers[j] == Answered(AppliedAll(m, ops[..j]), ops[j])
      {
        assert ops[..i + 1][..i] == ops[..i];
        var a := Do(ops[i]);
        answers := answers + [a];
      }
      assert ops[..|ops|] == ops;
    }
  }
}
