/** RocksDB as a map ordered by its byte keys (rocks_db.go). */
module RocksDb {
  import opened TickKey
  import opened Types

  /** A stored value: a Gob-encoded big integer, kept as the integer it decodes to, or raw bytes. */
  datatype Value = Gob(n: int) | Raw(bytes: Bytes)

  datatype Entry = Entry(key: Bytes, val: Value)

  type Data = map<Bytes, Value>

  predicate Within(k: Bytes, from: Bytes, to: Bytes) {
    LexLe(from, k) && LexLe(k, to)
  }

  /** `es` is what an ordered scan of [from, to], both ends included, yields. */
  ghost predicate IsScan(data: Data, from: Bytes, to: Bytes, es: seq<Entry>) {
    && (forall i, j :: 0 <= i < j < |es| ==> LexLt(es[i].key, es[j].key))
    && (forall i :: 0 <= i < |es| ==>
          es[i].key in data && data[es[i].key] == es[i].val && Within(es[i].key, from, to))
    && (forall k :: k in data && Within(k, from, to) ==> Entry(k, data[k]) in es)
  }

  /** The scan result is determined by the contents. */
  lemma {:induction false} ScanUnique(data: Data, from: Bytes, to: Bytes, es: seq<Entry>, fs: seq<Entry>)
    requires IsScan(data, from, to, es) && IsScan(data, from, to, fs)
    ensures es == fs
  {
    SameElements(es, fs);
  }

  lemma {:induction false} SameElements(es: seq<Entry>, fs: seq<Entry>)
    requires forall i, j :: 0 <= i < j < |es| ==> LexLt(es[i].key, es[j].key)
    requires forall i, j :: 0 <= i < j < |fs| ==> LexLt(fs[i].key, fs[j].key)
    requires forall e :: e in es <==> e in fs
    ensures es == fs
  {
    if es == [] {
      HeadIsMember(fs);
    } else {
      assert es[0] in fs && (fs[0] in fs ==> fs[0] in es);
      var i :| 0 <= i < |fs| && fs[i] == es[0];
      var j :| 0 <= j < |es| && es[j] == fs[0];
      LexTotal(es[0].key, fs[0].key);
      assert i == 0 && j == 0;
      forall e ensures e in es[1..] <==> e in fs[1..] {
        if e in es[1..] {
          assert e in es;
          var k :| 0 <= k < |es[1..]| && es[1..][k] == e;
          assert LexLt(es[0].key, es[k + 1].key);
        }
        if e in fs[1..] {
          assert e in fs;
          var k :| 0 <= k < |fs[1..]| && fs[1..][k] == e;
          assert LexLt(fs[0].key, fs[k + 1].key);
        }
      }
      SameElements(es[1..], fs[1..]);
      assert es == [es[0]] + es[1..] && fs == [fs[0]] + fs[1..];
    }
  }

  datatype BatchOp = Put(key: Bytes, val: Value) | Delete(key: Bytes) | DeleteRange(from: Bytes, to: Bytes)

  /** DeleteRange leaves its end key alone, while a scan includes it. */
  function ApplyOp(data: Data, op: BatchOp): Data {
    match op
    case Put(k, v) => data[k := v]
    case Delete(k) => data - {k}
    case DeleteRange(from, to) => map k | k in data && !(LexLe(from, k) && LexLt(k, to)) :: data[k]
  }

  function ApplyBatch(data: Data, ops: seq<BatchOp>): Data {
    if ops == [] then data else ApplyOp(ApplyBatch(data, ops[..|ops| - 1]), ops[|ops| - 1])
  }

  lemma ApplyBatchAppend(data: Data, ops: seq<BatchOp>, op: BatchOp)
    ensures ApplyBatch(data, ops + [op]) == ApplyOp(ApplyBatch(data, ops), op)
  {
    assert (ops + [op])[..|ops|] == ops;
  }

  /** An iterator's state: what was visited is in `result`, ascending; what is ahead comes after it. */
  ghost predicate Visited(data: Data, from: Bytes, to: Bytes, result: seq<Entry>, ahead: set<Bytes>) {
    && (forall x :: x in ahead ==> x in data && LexLe(from, x))
    && (forall i, j :: 0 <= i < j < |result| ==> LexLt(result[i].key, result[j].key))
    && (forall i :: 0 <= i < |result| ==>
          result[i].key in data && data[result[i].key] == result[i].val && Within(result[i].key, from, to))
    && (forall i, x :: 0 <= i < |result| && x in ahead ==> LexLt(result[i].key, x))
    && (forall k :: k in data && LexLe(from, k) ==> k in ahead || Entry(k, data[k]) in result)
  }

  lemma VisitNext(data: Data, from: Bytes, to: Bytes, result: seq<Entry>, ahead: set<Bytes>, k: Bytes)
    requires Visited(data, from, to, result, ahead)
    requires k in ahead && LexLe(k, to) && forall x :: x in ahead ==> LexLe(k, x)
    ensures Visited(data, from, to, result + [Entry(k, data[k])], ahead - {k})
  {
    var next := result + [Entry(k, data[k])];
    forall x | x in data && LexLe(from, x) ensures x in ahead - {k} || Entry(x, data[x]) in next {
      if x !in ahead {
        assert Entry(x, data[x]) in result;
      } else if x == k {
        assert next[|result|] == Entry(k, data[k]);
      }
    }
  }

  class RocksDB {
    var data: Data

    constructor ()
      ensures data == map[]
    {
      data := map[];
    }

    method Get(key: Bytes) returns (r: Option<Value>)
      ensures r == if key in data then Some(data[key]) else None
    {
      r := if key in data then Some(data[key]) else None;
    }

    method Set(key: Bytes, val: Value)
      modifies this
      ensures data == old(data)[key := val]
    {
      data := data[key := val];
    }

    /** The iterator's position: the least of the keys still ahead. */
    static method First(keys: set<Bytes>) returns (k: Option<Bytes>)
      ensures k.None? <==> keys == {}
      ensures k.Some? ==> k.value in keys && forall x :: x in keys ==> LexLe(k.value, x)
    {
      k := None;
      var todo := keys;
      while todo != {}
        invariant todo <= keys
        invariant k.None? ==> todo == keys
        invariant k.Some? ==> k.value in keys && forall x :: x in keys && x !in todo ==> LexLe(k.value, x)
        decreases todo
      {
        var x :| x in todo;
        todo := todo - {x};
        LexTotal(x, x);
        if k.None? {
          k := Some(x);
        } else if LexLe(x, k.value) {
          forall y | y in keys && y !in todo ensures LexLe(x, y) {
            if y != x {
              LexTransitive(x, k.value, y);
            }
          }
          k := Some(x);
        } else {
          LexTotal(x, k.value);
        }
      }
    }

    /** Seek(from), then Next until a key beyond `to`. */
    method GetRange(from: Bytes, to: Bytes) returns (result: seq<Entry>)
      ensures IsScan(data, from, to, result)
    {
      result := [];
      var ahead := set k | k in data && LexLe(from, k);
      var it := First(ahead);
      while it.Some? && LexLe(it.value, to)
        invariant it.None? <==> ahead == {}
        invariant it.Some? ==> it.value in ahead && forall x :: x in ahead ==> LexLe(it.value, x)
        invariant Visited(data, from, to, result, ahead)
        decreases ahead
      {
        VisitNext(data, from, to, result, ahead, it.value);
        result := result + [Entry(it.value, data[it.value])];
        ahead := ahead - {it.value};
        it := First(ahead);
      }
      forall k | k in data && Within(k, from, to) ensures Entry(k, data[k]) in result {
        if k in ahead {
          LexTransitive(it.value, k, to);
        }
      }
    }

    /** A batch takes effect as one write. */
    method WriteBatch(ops: seq<BatchOp>)
      modifies this
      ensures data == ApplyBatch(old(data), ops)
    {
      var d := data;
      for i := 0 to |ops|
        invariant d == ApplyBatch(old(data), ops[..i])
      {
        assert ops[..i + 1] == ops[..i] + [ops[i]];
        ApplyBatchAppend(old(data), ops[..i], ops[i]);
        d := ApplyOp(d, ops[i]);
      }
      assert ops[..|ops|] == ops;
      data := d;
    }
  }
}
