/** What the Map, Sort, Reduce and Fold nodes compute, as functions over the
    whole sequence of records their upstream yields. The Reduce loop itself is
    the method `ReduceByKey`, proved against `Reduce`. */
module Stages {
  import opened Records

  /* ---------------------------------------------------------------------- */
  /* Map (Graph.py:108-114): `yield from operation(value)` for each record.  */

  function FlatMap(op: Record -> seq<Record>, s: seq<Record>): seq<Record>
  {
    if s == [] then [] else op(s[0]) + FlatMap(op, s[1..])
  }

  /** Mapping a concatenation maps each part in turn. */
  lemma {:induction false} FlatMapAppend(op: Record -> seq<Record>, a: seq<Record>, b: seq<Record>)
    ensures FlatMap(op, a + b) == FlatMap(op, a) + FlatMap(op, b)
  {
    if a == [] {
      assert a + b == b;
    } else {
      assert (a + b)[1..] == a[1..] + b;
      FlatMapAppend(op, a[1..], b);
    }
  }

  /** An operation that yields its argument once leaves the stream as it is. */
  lemma {:induction false} FlatMapIdentity(op: Record -> seq<Record>, s: seq<Record>)
    requires forall r :: op(r) == [r]
    ensures FlatMap(op, s) == s
  {
    if s != [] {
      FlatMapIdentity(op, s[1..]);
    }
  }

  /** An operation that yields exactly one record per input is applied
      position by position. */
  lemma {:induction false} FlatMapOneEach(op: Record -> seq<Record>, s: seq<Record>)
    requires forall r :: |op(r)| == 1
    ensures |FlatMap(op, s)| == |s|
    ensures forall i :: 0 <= i < |s| ==> FlatMap(op, s)[i] == op(s[i])[0]
  {
    if s != [] {
      FlatMapOneEach(op, s[1..]);
      forall i | 0 < i < |s| ensures FlatMap(op, s)[i] == op(s[i])[0] {
        assert FlatMap(op, s)[i] == FlatMap(op, s[1..])[i - 1];
      }
    }
  }

  /* ---------------------------------------------------------------------- */
  /* Sort (Graph.py:120-143).                                                */

  /** The `by` argument of Sort and the `key` argument of Reduce and Join:
      a str, a list of str, a tuple of str, or a value that has neither
      `len()` nor iteration (None, an int). A set or dict key is not
      modelled. */
  datatype KeyArg = KeyName(name: string) | KeyList(names: seq<string>) | KeyTuple(names: seq<string>) | OtherType

  /** Sort's constructor: a str becomes a one-element list, a list is kept,
      anything else (a tuple too) raises ValueError. */
  function SortBy(keys: KeyArg): (r: Result<seq<string>>)
    ensures r.Err? <==> keys.OtherType? || keys.KeyTuple?
    ensures r.Err? ==> r.error == ValueError
    ensures keys.KeyName? ==> r.value == [keys.name]
    ensures keys.KeyList? ==> r.value == keys.names
  {
    match keys
    case KeyName(k) => Ok([k])
    case KeyList(ks) => Ok(ks)
    case KeyTuple(_) => Err(ValueError)
    case OtherType => Err(ValueError)
  }

  /** `itemgetter(*keys)(a) <= itemgetter(*keys)(b)`. */
  predicate KeyLe(a: Record, b: Record, keys: seq<string>)
  {
    !SeqLt(KeyOf(b, keys), KeyOf(a, keys))
  }

  predicate SortedBy(s: seq<Record>, keys: seq<string>)
  {
    forall i, j :: 0 <= i < j < |s| ==> KeyLe(s[i], s[j], keys)
  }

  /** Places `x` after every record of `t` whose key is not greater. */
  function Insert(x: Record, t: seq<Record>, keys: seq<string>): (r: seq<Record>)
    ensures multiset(r) == multiset(t) + multiset{x}
  {
    if t == [] then [x]
    else if SeqLt(KeyOf(x, keys), KeyOf(t[|t| - 1], keys)) then
      assert t == t[..|t| - 1] + [t[|t| - 1]];
      Insert(x, t[..|t| - 1], keys) + [t[|t| - 1]]
    else t + [x]
  }

  /** Python's `sorted(s, key=itemgetter(*keys))`: a stable sort. */
  function StableSort(s: seq<Record>, keys: seq<string>): (r: seq<Record>)
    ensures multiset(r) == multiset(s)
  {
    if s == [] then []
    else
      assert s == s[..|s| - 1] + [s[|s| - 1]];
      Insert(s[|s| - 1], StableSort(s[..|s| - 1], keys), keys)
  }

  /** What a Sort node yields: TypeError for an empty key list
      (`itemgetter()` takes at least one argument), KeyError when a record
      lacks a key field, the stably sorted records otherwise. */
  function SortRecords(keys: seq<string>, s: seq<Record>): Result<seq<Record>>
  {
    if keys == [] then Err(TypeError)
    else if !AllHave(s, keys) then Err(KeyError)
    else Ok(StableSort(s, keys))
  }

  lemma {:induction false} KeyLeTransitive(a: Record, b: Record, c: Record, keys: seq<string>)
    requires KeyLe(a, b, keys) && KeyLe(b, c, keys)
    ensures KeyLe(a, c, keys)
  {
    var ka, kb, kc := KeyOf(a, keys), KeyOf(b, keys), KeyOf(c, keys);
    if ka != kb { SeqLtTotal(ka, kb); }
    if kb != kc { SeqLtTotal(kb, kc); }
    if ka != kb && kb != kc {
      SeqLtTransitive(ka, kb, kc);
      SeqLtAsymmetric(ka, kc);
    }
  }

  lemma {:induction false} InsertSorted(x: Record, t: seq<Record>, keys: seq<string>)
    requires SortedBy(t, keys)
    ensures SortedBy(Insert(x, t, keys), keys)
  {
    if t != [] {
      var n := |t| - 1;
      if SeqLt(KeyOf(x, keys), KeyOf(t[n], keys)) {
        InsertSorted(x, t[..n], keys);
        SeqLtAsymmetric(KeyOf(x, keys), KeyOf(t[n], keys));
        InsertSortedBefore(x, t, keys);
      } else {
        if KeyOf(x, keys) != KeyOf(t[n], keys) {
          SeqLtTotal(KeyOf(x, keys), KeyOf(t[n], keys));
          SeqLtAsymmetric(KeyOf(t[n], keys), KeyOf(x, keys));
        }
        assert Insert(x, t, keys) == t + [x];
        InsertSortedAfter(x, t, keys);
      }
    }
  }

  /** `x` lands before the last record of `t`, which then stays last. */
  lemma {:induction false} InsertSortedBefore(x: Record, t: seq<Record>, keys: seq<string>)
    requires t != [] && SortedBy(t, keys) && KeyLe(x, t[|t| - 1], keys)
    requires Insert(x, t, keys) == Insert(x, t[..|t| - 1], keys) + [t[|t| - 1]]
    requires SortedBy(Insert(x, t[..|t| - 1], keys), keys)
    ensures SortedBy(Insert(x, t, keys), keys)
  {
    var init, last := t[..|t| - 1], t[|t| - 1];
    var u := Insert(x, init, keys);
    forall i | 0 <= i < |u| ensures KeyLe(u[i], last, keys) {
      assert u[i] in multiset(init) + multiset{x};
      if u[i] != x {
        var k :| 0 <= k < |init| && init[k] == u[i];
        assert t[k] == u[i];
      }
    }
    SortedSnoc(u, last, keys);
  }

  /** `x` is not below the last record of `t`, so it goes at the end. */
  lemma {:induction false} InsertSortedAfter(x: Record, t: seq<Record>, keys: seq<string>)
    requires t != [] && SortedBy(t, keys) && KeyLe(t[|t| - 1], x, keys)
    ensures SortedBy(t + [x], keys)
  {
    forall i | 0 <= i < |t| ensures KeyLe(t[i], x, keys) {
      if i < |t| - 1 {
        KeyLeTransitive(t[i], t[|t| - 1], x, keys);
      }
    }
    SortedSnoc(t, x, keys);
  }

  lemma {:induction false} SortedSnoc(s: seq<Record>, x: Record, keys: seq<string>)
    requires SortedBy(s, keys)
    requires forall i :: 0 <= i < |s| ==> KeyLe(s[i], x, keys)
    ensures SortedBy(s + [x], keys)
  {
    var r := s + [x];
    forall i, j | 0 <= i < j < |r| ensures KeyLe(r[i], r[j], keys) {
      assert r[i] == s[i];
      if j < |s| { assert r[j] == s[j]; }
    }
  }

  /** The output of the sort is ordered by its keys. */
  lemma {:induction false} StableSortSorted(s: seq<Record>, keys: seq<string>)
    ensures SortedBy(StableSort(s, keys), keys)
  {
    if s != [] {
      StableSortSorted(s[..|s| - 1], keys);
      InsertSorted(s[|s| - 1], StableSort(s[..|s| - 1], keys), keys);
    }
  }

  /** The records of `s` whose key tuple is `k`, in their order in `s`. */
  function WithKey(s: seq<Record>, keys: seq<string>, k: seq<Value>): seq<Record>
  {
    if s == [] then []
    else WithKey(s[..|s| - 1], keys, k) + (if KeyOf(s[|s| - 1], keys) == k then [s[|s| - 1]] else [])
  }

  lemma {:induction false} WithKeyAppend(a: seq<Record>, b: seq<Record>, keys: seq<string>, k: seq<Value>)
    ensures WithKey(a + b, keys, k) == WithKey(a, keys, k) + WithKey(b, keys, k)
    decreases |b|
  {
    if b == [] {
      assert a + b == a;
    } else {
      assert (a + b)[..|a + b| - 1] == a + b[..|b| - 1];
      WithKeyAppend(a, b[..|b| - 1], keys, k);
    }
  }

  function OneIf(x: Record, keys: seq<string>, k: seq<Value>): seq<Record>
  {
    if KeyOf(x, keys) == k then [x] else []
  }

  lemma {:induction false} WithKeySingle(x: Record, keys: seq<string>, k: seq<Value>)
    ensures WithKey([x], keys, k) == OneIf(x, keys, k)
  {
    assert [x][..0] == [];
  }

  lemma {:induction false} WithKeySnoc(t: seq<Record>, x: Record, keys: seq<string>, k: seq<Value>)
    ensures WithKey(t + [x], keys, k) == WithKey(t, keys, k) + OneIf(x, keys, k)
  {
    WithKeySingle(x, keys, k);
    WithKeyAppend(t, [x], keys, k);
  }

  /** Two records with different keys never both carry the key `k`. */
  lemma {:induction false} OneIfSwap(x: Record, y: Record, keys: seq<string>, k: seq<Value>)
    requires KeyOf(x, keys) != KeyOf(y, keys)
    ensures OneIf(x, keys, k) + OneIf(y, keys, k) == OneIf(y, keys, k) + OneIf(x, keys, k)
  {
  }

  lemma {:induction false} InsertWithKey(x: Record, t: seq<Record>, keys: seq<string>, k: seq<Value>)
    ensures WithKey(Insert(x, t, keys), keys, k) == WithKey(t, keys, k) + OneIf(x, keys, k)
    decreases |t|
  {
    if t == [] {
      WithKeySingle(x, keys, k);
    } else if SeqLt(KeyOf(x, keys), KeyOf(t[|t| - 1], keys)) {
      SeqLtIrreflexive(KeyOf(x, keys));
      InsertWithKey(x, t[..|t| - 1], keys, k);
      InsertBeforeLast(x, t, keys, k);
    } else {
      assert Insert(x, t, keys) == t + [x];
      WithKeySnoc(t, x, keys, k);
    }
  }

  /** The inductive step of InsertWithKey when `x` goes before the last record. */
  lemma {:induction false} InsertBeforeLast(x: Record, t: seq<Record>, keys: seq<string>, k: seq<Value>)
    requires t != [] && KeyOf(x, keys) != KeyOf(t[|t| - 1], keys)
    requires Insert(x, t, keys) == Insert(x, t[..|t| - 1], keys) + [t[|t| - 1]]
    requires WithKey(Insert(x, t[..|t| - 1], keys), keys, k) == WithKey(t[..|t| - 1], keys, k) + OneIf(x, keys, k)
    ensures WithKey(Insert(x, t, keys), keys, k) == WithKey(t, keys, k) + OneIf(x, keys, k)
  {
    var last := t[|t| - 1];
    WithKeySnoc(Insert(x, t[..|t| - 1], keys), last, keys, k);
    OneIfSwap(x, last, keys, k);
    SwapTail(WithKey(t[..|t| - 1], keys, k), OneIf(x, keys, k), OneIf(last, keys, k));
  }

  /** Two pieces that commute may be appended in either order. */
  lemma SwapTail<T>(w: seq<T>, a: seq<T>, b: seq<T>)
    requires a + b == b + a
    ensures (w + a) + b == (w + b) + a
  {
    assert (w + a) + b == w + (a + b);
    assert (w + b) + a == w + (b + a);
  }

  /** Stability: records with equal keys keep their input order, and no
      record is lost or added. */
  lemma {:induction false} StableSortWithKey(s: seq<Record>, keys: seq<string>, k: seq<Value>)
    ensures WithKey(StableSort(s, keys), keys, k) == WithKey(s, keys, k)
  {
    if s != [] {
      StableSortWithKey(s[..|s| - 1], keys, k);
      InsertWithKey(s[|s| - 1], StableSort(s[..|s| - 1], keys), keys, k);
    }
  }

  /** What a Sort node yields, whenever it yields: a permutation of its
      input, ordered by the `by` keys, equal keys in input order. */
  lemma {:induction false} SortRecordsMeaning(keys: seq<string>, s: seq<Record>)
    ensures SortRecords(keys, s).Ok? <==> keys != [] && AllHave(s, keys)
    ensures SortRecords(keys, s).Ok? ==>
      var r := SortRecords(keys, s).value;
      && multiset(r) == multiset(s)
      && SortedBy(r, keys)
      && forall k :: WithKey(r, keys, k) == WithKey(s, keys, k)
  {
    StableSortSorted(s, keys);
    forall k ensures WithKey(StableSort(s, keys), keys, k) == WithKey(s, keys, k) {
      StableSortWithKey(s, keys, k);
    }
  }

  /* ---------------------------------------------------------------------- */
  /* Map loop (Graph.py:113-114).                                            */

  /** The Map node's loop, collecting what the operation yields for each
      upstream record in turn. */
  method MapRun(op: Record -> seq<Record>, s: seq<Record>) returns (out: seq<Record>)
    ensures out == FlatMap(op, s)
  {
    out := [];
    var i := 0;
    while i < |s|
      invariant 0 <= i <= |s|
      invariant out == FlatMap(op, s[..i])
    {
      FlatMapAppend(op, s[..i], [s[i]]);
      assert s[..i + 1] == s[..i] + [s[i]];
      assert FlatMap(op, [s[i]]) == op(s[i]) + FlatMap(op, []);
      out := out + op(s[i]);
      i := i + 1;
    }
    assert s[..i] == s;
  }

  /* ---------------------------------------------------------------------- */
  /* Reduce (Graph.py:406-452).                                              */

  /** Splits `s` into maximal runs of consecutive records with equal key
      tuples, the blocks the Reduce loop hands to its operation. */
  function Groups(s: seq<Record>, keys: seq<string>): (gs: seq<seq<Record>>)
    ensures s != [] ==> |gs| > 0
    ensures forall i :: 0 <= i < |gs| ==> gs[i] != []
  {
    if s == [] then []
    else if |s| == 1 then [[s[0]]]
    else
      var n := |s|;
      var gs := Groups(s[..n - 1], keys);
      if KeyOf(s[n - 2], keys) == KeyOf(s[n - 1], keys) then
        gs[..|gs| - 1] + [gs[|gs| - 1] + [s[n - 1]]]
      else
        gs + [[s[n - 1]]]
  }

  /** One more record either joins the last block or opens a new one. */
  lemma {:induction false} GroupsSnoc(s: seq<Record>, x: Record, keys: seq<string>)
    ensures s == [] ==> Groups(s + [x], keys) == [[x]]
    ensures s != [] && KeyOf(s[|s| - 1], keys) == KeyOf(x, keys) ==>
      var gs := Groups(s, keys);
      Groups(s + [x], keys) == gs[..|gs| - 1] + [gs[|gs| - 1] + [x]]
    ensures s != [] && KeyOf(s[|s| - 1], keys) != KeyOf(x, keys) ==>
      Groups(s + [x], keys) == Groups(s, keys) + [[x]]
  {
    var t := s + [x];
    assert t[..|t| - 1] == s;
  }

  function Flatten(gs: seq<seq<Record>>): seq<Record>
  {
    if gs == [] then [] else Flatten(gs[..|gs| - 1]) + gs[|gs| - 1]
  }

  /** A block: non-empty, every record with the key tuple of the first. */
  predicate Uniform(g: seq<Record>, keys: seq<string>)
  {
    g != [] && forall j :: 0 <= j < |g| ==> KeyOf(g[j], keys) == KeyOf(g[0], keys)
  }

  /** Blocks are uniform and neighbouring blocks have different keys. */
  predicate Blocks(gs: seq<seq<Record>>, keys: seq<string>)
  {
    && (forall i :: 0 <= i < |gs| ==> Uniform(gs[i], keys))
    && (forall i :: 0 < i < |gs| ==> KeyOf(gs[i - 1][0], keys) != KeyOf(gs[i][0], keys))
  }

  lemma {:induction false} FlattenSnoc(gs: seq<seq<Record>>, g: seq<Record>)
    ensures Flatten(gs + [g]) == Flatten(gs) + g
  {
    assert (gs + [g])[..|gs|] == gs;
  }

  lemma {:induction false} FlattenExtend(gs: seq<seq<Record>>, x: Record)
    requires gs != []
    ensures Flatten(gs[..|gs| - 1] + [gs[|gs| - 1] + [x]]) == Flatten(gs) + [x]
  {
    var init, last := gs[..|gs| - 1], gs[|gs| - 1];
    assert Flatten(gs) == Flatten(init) + last by {
      assert gs == init + [last];
      FlattenSnoc(init, last);
    }
    assert Flatten(init + [last + [x]]) == Flatten(init) + (last + [x]) by {
      FlattenSnoc(init, last + [x]);
    }
  }

  /** The blocks put back together are the input. */
  lemma {:induction false} GroupsFlatten(s: seq<Record>, keys: seq<string>)
    ensures Flatten(Groups(s, keys)) == s
    decreases |s|
  {
    if s != [] {
      var init, x := s[..|s| - 1], s[|s| - 1];
      assert s == init + [x];
      GroupsSnoc(init, x, keys);
      GroupsFlatten(init, keys);
      if init == [] {
        FlattenSnoc([], [x]);
      } else if KeyOf(init[|init| - 1], keys) == KeyOf(x, keys) {
        FlattenExtend(Groups(init, keys), x);
      } else {
        FlattenSnoc(Groups(init, keys), [x]);
      }
    }
  }

  /** Adding a record to the last block keeps the blocks maximal runs. */
  lemma {:induction false} ExtendLastBlock(gs: seq<seq<Record>>, x: Record, keys: seq<string>)
    requires Blocks(gs, keys) && gs != []
    requires KeyOf(gs[|gs| - 1][0], keys) == KeyOf(x, keys)
    ensures var gs' := gs[..|gs| - 1] + [gs[|gs| - 1] + [x]];
      Blocks(gs', keys) && gs'[|gs'| - 1][0] == gs[|gs| - 1][0]
  {
    var m := |gs|;
    var gs' := gs[..m - 1] + [gs[m - 1] + [x]];
    assert gs'[m - 1][0] == gs[m - 1][0];
    assert Uniform(gs'[m - 1], keys);
    forall i | 0 <= i < m - 1 ensures gs'[i] == gs[i] { }
  }

  /** Opening a block with a new key keeps the blocks maximal runs. */
  lemma {:induction false} NewBlock(gs: seq<seq<Record>>, x: Record, keys: seq<string>)
    requires Blocks(gs, keys) && gs != []
    requires KeyOf(gs[|gs| - 1][0], keys) != KeyOf(x, keys)
    ensures Blocks(gs + [[x]], keys)
  {
    var gs' := gs + [[x]];
    forall i | 0 <= i < |gs| ensures gs'[i] == gs[i] { }
  }

  /** The blocks are maximal runs of one key, and the last one carries the
      key of the last record. */
  lemma {:induction false} GroupsBlocks(s: seq<Record>, keys: seq<string>)
    ensures Blocks(Groups(s, keys), keys)
    ensures s != [] ==> KeyOf(Groups(s, keys)[|Groups(s, keys)| - 1][0], keys) == KeyOf(s[|s| - 1], keys)
    decreases |s|
  {
    if s != [] {
      var n := |s|;
      var init, x := s[..n - 1], s[n - 1];
      assert s == init + [x];
      GroupsSnoc(init, x, keys);
      GroupsBlocks(init, keys);
      var gs := Groups(init, keys);
      if init == [] {
        assert Groups(s, keys) == [[x]];
      } else if KeyOf(init[|init| - 1], keys) == KeyOf(x, keys) {
        ExtendLastBlock(gs, x, keys);
        assert Groups(s, keys) == gs[..|gs| - 1] + [gs[|gs| - 1] + [x]];
      } else {
        NewBlock(gs, x, keys);
        assert Groups(s, keys) == gs + [[x]];
      }
    }
  }

  /** After a sort on the same keys every key tuple has exactly one block:
      block keys strictly increase. */
  lemma {:induction false} GroupsOfSorted(s: seq<Record>, keys: seq<string>)
    requires SortedBy(s, keys)
    ensures forall i, j :: 0 <= i < j < |Groups(s, keys)| ==>
      SeqLt(KeyOf(Groups(s, keys)[i][0], keys), KeyOf(Groups(s, keys)[j][0], keys))
    decreases |s|
  {
    if s != [] {
      var n := |s|;
      var init, x := s[..n - 1], s[n - 1];
      assert s == init + [x];
      GroupsSnoc(init, x, keys);
      GroupsOfSorted(init, keys);
      if init == [] {
      } else if KeyOf(init[|init| - 1], keys) == KeyOf(x, keys) {
        KeysIncreaseExtend(Groups(init, keys), x, keys);
      } else {
        GroupsBlocks(init, keys);
        assert KeyLe(s[n - 2], x, keys);
        SeqLtTotal(KeyOf(init[|init| - 1], keys), KeyOf(x, keys));
        KeysIncreaseNew(Groups(init, keys), x, keys);
      }
    }
  }

  /** Adding a record to the last block keeps the block keys increasing. */
  lemma {:induction false} KeysIncreaseExtend(gs: seq<seq<Record>>, x: Record, keys: seq<string>)
    requires gs != [] && forall i :: 0 <= i < |gs| ==> gs[i] != []
    requires forall i, j :: 0 <= i < j < |gs| ==> SeqLt(KeyOf(gs[i][0], keys), KeyOf(gs[j][0], keys))
    ensures var gs' := gs[..|gs| - 1] + [gs[|gs| - 1] + [x]];
      forall i, j :: 0 <= i < j < |gs'| ==> SeqLt(KeyOf(gs'[i][0], keys), KeyOf(gs'[j][0], keys))
  {
    var gs' := gs[..|gs| - 1] + [gs[|gs| - 1] + [x]];
    forall i | 0 <= i < |gs| ensures gs'[i][0] == gs[i][0] { }
  }

  /** A new last block whose key is above the old last block's keeps the
      block keys increasing. */
  lemma {:induction false} KeysIncreaseNew(gs: seq<seq<Record>>, x: Record, keys: seq<string>)
    requires gs != [] && forall i :: 0 <= i < |gs| ==> gs[i] != []
    requires forall i, j :: 0 <= i < j < |gs| ==> SeqLt(KeyOf(gs[i][0], keys), KeyOf(gs[j][0], keys))
    requires SeqLt(KeyOf(gs[|gs| - 1][0], keys), KeyOf(x, keys))
    ensures var gs' := gs + [[x]];
      forall i, j :: 0 <= i < j < |gs'| ==> SeqLt(KeyOf(gs'[i][0], keys), KeyOf(gs'[j][0], keys))
  {
    var m, kl, kx := |gs|, KeyOf(gs[|gs| - 1][0], keys), KeyOf(x, keys);
    forall i | 0 <= i < m ensures SeqLt(KeyOf(gs[i][0], keys), kx) {
      if i < m - 1 {
        SeqLtTransitive(KeyOf(gs[i][0], keys), kl, kx);
      }
    }
    var gs' := gs + [[x]];
    forall i | 0 <= i < m ensures gs'[i] == gs[i] { }
  }

  /** What the operation yields over the blocks, block after block. */
  function ApplyGroups(op: seq<Record> -> seq<Record>, gs: seq<seq<Record>>): seq<Record>
  {
    if gs == [] then [] else ApplyGroups(op, gs[..|gs| - 1]) + op(gs[|gs| - 1])
  }

  /** Reduce's `key` after its constructor: None stays None, a str becomes a
      one-element list, a list or tuple is kept and iterated alike; a value
      of any other type is kept too and fails once a record arrives. */
  datatype ReduceKey = NoKey | Keys(names: seq<string>) | BadKey

  function ReduceKeyOf(key: Option<KeyArg>): (k: ReduceKey)
    ensures key.None? <==> k.NoKey?
    ensures key.Some? && key.value.KeyName? ==> k == Keys([key.value.name])
    ensures key.Some? && (key.value.KeyList? || key.value.KeyTuple?) ==> k == Keys(key.value.names)
    ensures key.Some? && key.value.OtherType? ==> k.BadKey?
  {
    match key
    case None => NoKey
    case Some(KeyName(n)) => Keys([n])
    case Some(KeyList(ns)) => Keys(ns)
    case Some(KeyTuple(ns)) => Keys(ns)
    case Some(OtherType) => BadKey
  }

  /** What a Reduce node yields: with no key the operation sees the whole
      input once; with a key, a record lacking a key field is a KeyError,
      otherwise the operation sees each block of equal keys; a key that is
      not iterable fails on the first record. */
  function ReduceSpec(op: seq<Record> -> seq<Record>, key: ReduceKey, s: seq<Record>): Result<seq<Record>>
  {
    match key
    case NoKey => Ok(op(s))
    case Keys(keys) =>
      if AllHave(s, keys) then Ok(ApplyGroups(op, Groups(s, keys))) else Err(KeyError)
    case BadKey => if s == [] then Ok([]) else Err(TypeError)
  }

  /** The Reduce node's loop with a key: a stack of records with the
      previous key tuple, handed to the operation when the key changes and
      once more at the end. */
  method ReduceByKey(op: seq<Record> -> seq<Record>, keys: seq<string>, s: seq<Record>)
    returns (r: Result<seq<Record>>)
    ensures r == ReduceSpec(op, Keys(keys), s)
  {
    var out: seq<Record> := [];
    var stack: seq<Record> := [];
    var previous: Option<seq<Value>> := None;
    ghost var done: seq<seq<Record>> := [];
    var i := 0;
    while i < |s|
      invariant 0 <= i <= |s|
      invariant AllHave(s[..i], keys)
      invariant previous.None? <==> i == 0
      invariant i == 0 ==> stack == [] && done == []
      invariant i > 0 ==> previous == Some(KeyOf(s[i - 1], keys)) && Groups(s[..i], keys) == done + [stack]
      invariant out == ApplyGroups(op, done)
    {
      var current := s[i];
      if !HasAll(current, keys) {
        assert !AllHave(s, keys);
        return Err(KeyError);
      }
      var currentKey := KeyOf(current, keys);
      AllHaveSnoc(s, i, keys);
      if previous.None? {
        assert s[..i + 1] == [current];
        stack := [current];
      } else if currentKey == previous.value {
        GroupsStep(s, i, keys, done, stack);
        stack := stack + [current];
      } else {
        GroupsStep(s, i, keys, done, stack);
        out := out + op(stack);
        ApplyGroupsSnoc(op, done, stack);
        done := done + [stack];
        stack := [current];
      }
      previous := Some(currentKey);
      i := i + 1;
    }
    assert s[..i] == s;
    if |stack| > 0 {
      ApplyGroupsSnoc(op, done, stack);
      out := out + op(stack);
    }
    r := Ok(out);
  }

  /** How the blocks grow by one record, as the loop of ReduceByKey sees it. */
  lemma {:induction false} GroupsStep(s: seq<Record>, i: nat, keys: seq<string>, done: seq<seq<Record>>, stack: seq<Record>)
    requires 0 < i < |s| && Groups(s[..i], keys) == done + [stack]
    ensures KeyOf(s[i], keys) == KeyOf(s[i - 1], keys) ==> Groups(s[..i + 1], keys) == done + [stack + [s[i]]]
    ensures KeyOf(s[i], keys) != KeyOf(s[i - 1], keys) ==> Groups(s[..i + 1], keys) == (done + [stack]) + [[s[i]]]
  {
    var t := s[..i];
    assert s[..i + 1] == t + [s[i]];
    assert t[|t| - 1] == s[i - 1];
    GroupsSnoc(t, s[i], keys);
    assert (done + [stack])[..|done|] == done;
  }

  lemma {:induction false} AllHaveSnoc(s: seq<Record>, i: nat, keys: seq<string>)
    requires i < |s| && AllHave(s[..i], keys) && HasAll(s[i], keys)
    ensures AllHave(s[..i + 1], keys)
  {
    assert forall j :: 0 <= j < i ==> s[..i + 1][j] == s[..i][j];
  }

  lemma {:induction false} ApplyGroupsSnoc(op: seq<Record> -> seq<Record>, gs: seq<seq<Record>>, g: seq<Record>)
    ensures ApplyGroups(op, gs + [g]) == ApplyGroups(op, gs) + op(g)
  {
    assert (gs + [g])[..|gs|] == gs;
  }

  /* ---------------------------------------------------------------------- */
  /* Fold (Graph.py:382-400).                                                */

  /** The state after folding `s` into `state`, one record at a time. */
  function FoldLeft(f: (Record, Record) -> Record, state: Record, s: seq<Record>): Record
  {
    if s == [] then state else f(FoldLeft(f, state, s[..|s| - 1]), s[|s| - 1])
  }

  /** The state lives on in the node: a second run continues from where the
      first one stopped, so two runs over `a` then `b` fold `a + b`. */
  lemma {:induction false} FoldLeftAppend(f: (Record, Record) -> Record, state: Record, a: seq<Record>, b: seq<Record>)
    ensures FoldLeft(f, state, a + b) == FoldLeft(f, FoldLeft(f, state, a), b)
    decreases |b|
  {
    if b == [] {
      assert a + b == a;
    } else {
      assert (a + b)[..|a + b| - 1] == a + b[..|b| - 1];
      FoldLeftAppend(f, state, a, b[..|b| - 1]);
    }
  }
}
