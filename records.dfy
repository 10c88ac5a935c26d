/** Records: the rows the engine moves between stages. A row is a Python
    dict, so it is modelled as the sequence of its items in insertion order;
    field order matters because the join classifies rows by it. */
module Records {

  /** The Python exceptions that escape from the engine. */
  datatype Error =
    | KeyError        // a field named by a key or a rename is missing
    | TypeError       // iterating or indexing None, itemgetter() with no key
    | IndexError      // res[0] / output[0] of an empty side in a join
    | ValueError      // a sort key that is neither str nor list
    | AttributeError  // following .input from something that is not a node
    | RuntimeError    // a broken chain while building a graph
    | FileNotFound    // an input file that does not exist

  datatype Option<T> = None | Some(value: T)

  datatype Result<T> = Ok(value: T) | Err(error: Error)

  /** JSON-like values. */
  datatype Value = Null | Int(i: int) | Str(s: string) | List(items: seq<Value>)

  datatype Field = Field(name: string, value: Value)

  /** A dict as the list of its items, oldest key first. */
  type Record = seq<Field>

  function Names(r: Record): (ns: seq<string>)
    ensures |ns| == |r|
    ensures forall i :: 0 <= i < |r| ==> ns[i] == r[i].name
  {
    seq(|r|, i requires 0 <= i < |r| => r[i].name)
  }

  predicate Distinct<T(==)>(xs: seq<T>)
  {
    forall i, j :: 0 <= i < j < |xs| ==> xs[i] != xs[j]
  }

  /** A dict never holds the same key twice. */
  predicate WellFormed(r: Record)
  {
    Distinct(Names(r))
  }

  /** `r.get(k)`: the value stored under `k`, if any. */
  function Get(r: Record, k: string): (o: Option<Value>)
    ensures o.None? <==> k !in Names(r)
    ensures o.Some? ==> Field(k, o.value) in r
  {
    if r == [] then None
    else if r[0].name == k then Some(r[0].value)
    else Get(r[1..], k)
  }

  lemma {:induction false} NamesCons(f: Field, t: Record)
    ensures Names([f] + t) == [f.name] + Names(t)
  {
  }

  /** The names after the first field are the names of the tail. */
  lemma {:induction false} NamesTail(r: Record)
    requires r != []
    ensures Names(r) == [r[0].name] + Names(r[1..])
  {
    assert r == [r[0]] + r[1..];
    NamesCons(r[0], r[1..]);
  }

  lemma {:induction false} WellFormedTail(r: Record)
    requires r != [] && WellFormed(r)
    ensures WellFormed(r[1..]) && r[0].name !in Names(r[1..])
  {
    NamesTail(r);
  }

  /** `r[k] = v`: an existing key keeps its position, a new key goes last. */
  function Assign(r: Record, k: string, v: Value): (r': Record)
    ensures Get(r', k) == Some(v)
    ensures forall j :: j != k ==> Get(r', j) == Get(r, j)
  {
    if r == [] then [Field(k, v)]
    else if r[0].name == k then [Field(k, v)] + r[1..]
    else [r[0]] + Assign(r[1..], k, v)
  }

  /** Assigning keeps the position of an existing key and appends a new one. */
  lemma {:induction false} AssignNames(r: Record, k: string, v: Value)
    ensures Names(Assign(r, k, v)) == if k in Names(r) then Names(r) else Names(r) + [k]
  {
    if r != [] {
      NamesTail(r);
      if r[0].name == k {
        NamesCons(Field(k, v), r[1..]);
      } else {
        AssignNames(r[1..], k, v);
        NamesCons(r[0], Assign(r[1..], k, v));
        assert k in Names(r) <==> k in Names(r[1..]);
        if k !in Names(r) {
          assert [r[0].name] + (Names(r[1..]) + [k]) == ([r[0].name] + Names(r[1..])) + [k];
        }
      }
    }
  }

  /** The dict left behind by `r.pop(k)`. */
  function Remove(r: Record, k: string): (r': Record)
    ensures Get(r', k) == None
    ensures forall j :: j != k ==> Get(r', j) == Get(r, j)
    ensures k !in Names(r) ==> r' == r
  {
    if r == [] then []
    else
      NamesTail(r);
      var tail := Remove(r[1..], k);
      if r[0].name == k then tail
      else
        var r' := [r[0]] + tail;
        assert r'[0] == r[0] && r'[1..] == tail;
        assert r == [r[0]] + r[1..];
        r'
  }

  /** Popping from a dict leaves a dict one item shorter. */
  lemma {:induction false} RemoveWellFormed(r: Record, k: string)
    requires WellFormed(r)
    ensures WellFormed(Remove(r, k))
    ensures k in Names(r) ==> |Remove(r, k)| == |r| - 1
  {
    if r != [] {
      WellFormedTail(r);
      RemoveWellFormed(r[1..], k);
      var tail := Remove(r[1..], k);
      NamesTail(r);
      if r[0].name == k {
        assert Remove(r, k) == tail == r[1..];
      } else {
        assert Get(tail, r[0].name) == None;
        ConsWellFormed(r[0], tail);
        assert k in Names(r) ==> k in Names(r[1..]);
      }
    }
  }

  /** A field whose key the dict lacks can go in front of it. */
  lemma {:induction false} ConsWellFormed(f: Field, t: Record)
    requires WellFormed(t) && Get(t, f.name) == None
    ensures WellFormed([f] + t)
  {
    NamesCons(f, t);
  }

  /** `r.update(s)`: the items of `s` assigned one after another. */
  function Update(r: Record, s: Record): (r': Record)
    decreases |s|
  {
    if s == [] then r else Update(Assign(r, s[0].name, s[0].value), s[1..])
  }

  lemma {:induction false} AssignWellFormed(r: Record, k: string, v: Value)
    requires WellFormed(r)
    ensures WellFormed(Assign(r, k, v))
  {
    AssignNames(r, k, v);
  }

  /** After `r.update(s)` every key of `s` reads its value in `s`, every
      other key reads as before, and no key is lost or duplicated. */
  lemma {:induction false} UpdateGet(r: Record, s: Record, k: string)
    requires WellFormed(s)
    ensures Get(Update(r, s), k) == if k in Names(s) then Get(s, k) else Get(r, k)
    decreases |s|
  {
    if s != [] {
      WellFormedTail(s);
      NamesTail(s);
      UpdateGet(Assign(r, s[0].name, s[0].value), s[1..], k);
    }
  }

  lemma {:induction false} UpdateWellFormed(r: Record, s: Record)
    requires WellFormed(r)
    ensures WellFormed(Update(r, s))
    decreases |s|
  {
    if s != [] {
      AssignWellFormed(r, s[0].name, s[0].value);
      UpdateWellFormed(Assign(r, s[0].name, s[0].value), s[1..]);
    }
  }

  /** `update` keeps every existing key at its position and only appends. */
  lemma {:induction false} UpdateKeepsPositions(r: Record, s: Record)
    ensures Names(r) <= Names(Update(r, s))
    ensures forall k :: k in Names(Update(r, s)) <==> k in Names(r) || k in Names(s)
    decreases |s|
  {
    if s != [] {
      var a := Assign(r, s[0].name, s[0].value);
      AssignNames(r, s[0].name, s[0].value);
      NamesTail(s);
      UpdateKeepsPositions(a, s[1..]);
    }
  }

  lemma {:induction false} UpdateAppend(r: Record, a: Record, b: Record)
    ensures Update(r, a + b) == Update(Update(r, a), b)
    decreases |a|
  {
    if a != [] {
      assert (a + b)[1..] == a[1..] + b;
      UpdateAppend(Assign(r, a[0].name, a[0].value), a[1..], b);
    } else {
      assert a + b == b;
    }
  }

  /** `r[n] = r.pop(k)`: the value of `k` moves to the key `n`. */
  function Rename(r: Record, k: string, n: string): Record
    requires k in Names(r)
  {
    Assign(Remove(r, k), n, Get(r, k).value)
  }

  /* ---------------------------------------------------------------------- */
  /* Ordering of strings (Python compares code points, lexicographically).  */

  predicate StrLt(a: string, b: string)
  {
    if a == [] then b != []
    else if b == [] then false
    else if a[0] != b[0] then a[0] < b[0]
    else StrLt(a[1..], b[1..])
  }

  lemma {:induction false} StrLtIrreflexive(a: string)
    ensures !StrLt(a, a)
  {
    if a != [] { StrLtIrreflexive(a[1..]); }
  }

  lemma {:induction false} StrLtTransitive(a: string, b: string, c: string)
    requires StrLt(a, b) && StrLt(b, c)
    ensures StrLt(a, c)
  {
    if a != [] && b != [] && c != [] && a[0] == b[0] && b[0] == c[0] {
      StrLtTransitive(a[1..], b[1..], c[1..]);
    }
  }

  lemma {:induction false} StrLtTotal(a: string, b: string)
    requires a != b
    ensures StrLt(a, b) || StrLt(b, a)
  {
    if a != [] && b != [] && a[0] == b[0] {
      assert a == [a[0]] + a[1..] && b == [b[0]] + b[1..];
      StrLtTotal(a[1..], b[1..]);
    }
  }

  lemma {:induction false} StrLtAsymmetric(a: string, b: string)
    requires StrLt(a, b)
    ensures !StrLt(b, a)
  {
    if StrLt(b, a) {
      StrLtTransitive(a, b, a);
      StrLtIrreflexive(a);
    }
  }

  /* ---------------------------------------------------------------------- */
  /* `{k: r[k] for k in sorted(r)}`: the same items ordered by name.       */

  predicate StrictlySorted(ns: seq<string>)
  {
    forall i, j :: 0 <= i < j < |ns| ==> StrLt(ns[i], ns[j])
  }

  function InsertByName(f: Field, t: Record): (r: Record)
    ensures multiset(r) == multiset(t) + multiset{f}
  {
    if t == [] then [f]
    else if StrLt(f.name, t[0].name) then [f] + t
    else
      assert t == [t[0]] + t[1..];
      [t[0]] + InsertByName(f, t[1..])
  }

  lemma {:induction false} InsertByNameSorted(f: Field, t: Record)
    requires StrictlySorted(Names(t)) && f.name !in Names(t)
    ensures StrictlySorted(Names(InsertByName(f, t)))
  {
    if t == [] {
    } else if StrLt(f.name, t[0].name) {
      InsertByNameFront(f, t);
    } else {
      NamesTail(t);
      StrLtTotal(f.name, t[0].name);
      InsertByNameSorted(f, t[1..]);
      InsertByNameLater(f, t);
    }
  }

  /** `f` sorts before the first field: it goes in front. */
  lemma {:induction false} InsertByNameFront(f: Field, t: Record)
    requires t != [] && StrictlySorted(Names(t)) && StrLt(f.name, t[0].name)
    ensures StrictlySorted(Names([f] + t))
  {
    var r := [f] + t;
    NamesCons(f, t);
    forall i, j | 0 <= i < j < |r| ensures StrLt(Names(r)[i], Names(r)[j]) {
      if i == 0 && j > 1 {
        StrLtTransitive(f.name, t[0].name, t[j - 1].name);
      }
    }
  }

  /** `f` sorts after the first field: the first field stays in front. */
  lemma {:induction false} InsertByNameLater(f: Field, t: Record)
    requires t != [] && StrictlySorted(Names(t)) && StrLt(t[0].name, f.name)
    requires StrictlySorted(Names(InsertByName(f, t[1..])))
    ensures StrictlySorted(Names([t[0]] + InsertByName(f, t[1..])))
  {
    var tail := InsertByName(f, t[1..]);
    var r := [t[0]] + tail;
    NamesCons(t[0], tail);
    forall j | 0 < j < |r| ensures StrLt(t[0].name, Names(r)[j]) {
      var x := r[j];
      assert x in multiset(tail);
      if x != f {
        assert x in multiset(t[1..]);
        var k :| 0 <= k < |t[1..]| && t[1..][k] == x;
        assert Names(t)[k + 1] == x.name;
      }
    }
  }

  /** The copy the engine builds before yielding a merged row. */
  function SortedByName(r: Record): (r': Record)
    ensures multiset(r') == multiset(r)
    ensures |r'| == |r|
  {
    if r == [] then []
    else
      assert r == [r[0]] + r[1..];
      InsertByName(r[0], SortedByName(r[1..]))
  }

  lemma {:induction false} SortedByNameSorted(r: Record)
    requires WellFormed(r)
    ensures StrictlySorted(Names(SortedByName(r)))
  {
    if r != [] {
      WellFormedTail(r);
      SortedByNameSorted(r[1..]);
      var t := SortedByName(r[1..]);
      forall k | 0 <= k < |t| ensures Names(t)[k] != r[0].name {
        assert t[k] in multiset(r[1..]);
        var m :| 0 <= m < |r[1..]| && r[1..][m] == t[k];
        assert Names(r[1..])[m] == t[k].name;
      }
      InsertByNameSorted(r[0], t);
    }
  }

  /** Two item lists with the same items and distinct names answer every
      lookup alike. */
  lemma {:induction false} SameItemsSameGet(r: Record, r': Record, k: string)
    requires WellFormed(r) && WellFormed(r')
    requires multiset(r) == multiset(r')
    ensures Get(r, k) == Get(r', k)
  {
    SameItemsSameNames(r, r', k);
    SameItemsSameNames(r', r, k);
    if Get(r, k).Some? {
      assert Field(k, Get(r, k).value) in multiset(r');
      GetOfMember(r', Field(k, Get(r, k).value));
    }
  }

  lemma {:induction false} SameItemsSameNames(r: Record, r': Record, k: string)
    requires multiset(r) == multiset(r')
    ensures k in Names(r') ==> k in Names(r)
  {
    if k in Names(r') {
      var i :| 0 <= i < |r'| && Names(r')[i] == k;
      assert r'[i] in multiset(r);
      var j :| 0 <= j < |r| && r[j] == r'[i];
      assert Names(r)[j] == k;
    }
  }

  lemma {:induction false} GetOfMember(r: Record, f: Field)
    requires WellFormed(r) && f in r
    ensures Get(r, f.name) == Some(f.value)
  {
    var i :| 0 <= i < |r| && r[i] == f;
    if i > 0 {
      assert Names(r)[0] != Names(r)[i];
      WellFormedTail(r);
      assert r[1..][i - 1] == f;
      GetOfMember(r[1..], f);
    }
  }

  /** A row built by the engine for output: every lookup answers as in `r`,
      and the names ascend. */
  lemma {:induction false} SortedByNameMeaning(r: Record)
    requires WellFormed(r)
    ensures StrictlySorted(Names(SortedByName(r)))
    ensures forall k :: Get(SortedByName(r), k) == Get(r, k)
  {
    SortedByNameSorted(r);
    var s := SortedByName(r);
    assert WellFormed(s) by {
      forall i, j | 0 <= i < j < |s| ensures Names(s)[i] != Names(s)[j] {
        StrLtIrreflexive(Names(s)[i]);
      }
    }
    forall k ensures Get(s, k) == Get(r, k) { SameItemsSameGet(s, r, k); }
  }

  /* ---------------------------------------------------------------------- */
  /* Ordering of values, as Python's `<` on sort keys.                      */

  function Kind(v: Value): nat
  {
    match v
    case Null => 0
    case Int(_) => 1
    case Str(_) => 2
    case List(_) => 3
  }

  predicate ValueLt(a: Value, b: Value)
    decreases a, 1
  {
    if Kind(a) != Kind(b) then Kind(a) < Kind(b)
    else match a
      case Null => false
      case Int(x) => x < b.i
      case Str(x) => StrLt(x, b.s)
      case List(xs) => SeqLt(xs, b.items)
  }

  /** Lexicographic order on tuples of values (Python tuple comparison). */
  predicate SeqLt(xs: seq<Value>, ys: seq<Value>)
    decreases xs, 0
  {
    if xs == [] then ys != []
    else if ys == [] then false
    else if xs[0] != ys[0] then ValueLt(xs[0], ys[0])
    else SeqLt(xs[1..], ys[1..])
  }

  lemma {:induction false} ValueLtIrreflexive(a: Value)
    ensures !ValueLt(a, a)
    decreases a, 1
  {
    match a
    case Str(x) => StrLtIrreflexive(x);
    case List(xs) => SeqLtIrreflexive(xs);
    case _ =>
  }

  lemma {:induction false} SeqLtIrreflexive(xs: seq<Value>)
    ensures !SeqLt(xs, xs)
    decreases xs, 0
  {
    if xs != [] { SeqLtIrreflexive(xs[1..]); }
  }

  lemma {:induction false} ValueLtTransitive(a: Value, b: Value, c: Value)
    requires ValueLt(a, b) && ValueLt(b, c)
    ensures ValueLt(a, c)
    decreases a, 1
  {
    if Kind(a) == Kind(b) == Kind(c) {
      match a
      case Str(x) => StrLtTransitive(x, b.s, c.s);
      case List(xs) => SeqLtTransitive(xs, b.items, c.items);
      case _ =>
    }
  }

  lemma {:induction false} SeqLtTransitive(xs: seq<Value>, ys: seq<Value>, zs: seq<Value>)
    requires SeqLt(xs, ys) && SeqLt(ys, zs)
    ensures SeqLt(xs, zs)
    decreases xs, 0
  {
    if xs != [] && ys != [] && zs != [] {
      if xs[0] != ys[0] && ys[0] != zs[0] {
        ValueLtTransitive(xs[0], ys[0], zs[0]);
        if xs[0] == zs[0] { ValueLtIrreflexive(xs[0]); }
      } else if xs[0] == ys[0] && ys[0] == zs[0] {
        SeqLtTransitive(xs[1..], ys[1..], zs[1..]);
      }
    }
  }

  lemma {:induction false} ValueLtTotal(a: Value, b: Value)
    requires a != b
    ensures ValueLt(a, b) || ValueLt(b, a)
    decreases a, 1
  {
    if Kind(a) == Kind(b) {
      match a
      case Str(x) => StrLtTotal(x, b.s);
      case List(xs) => SeqLtTotal(xs, b.items);
      case _ =>
    }
  }

  lemma {:induction false} SeqLtTotal(xs: seq<Value>, ys: seq<Value>)
    requires xs != ys
    ensures SeqLt(xs, ys) || SeqLt(ys, xs)
    decreases xs, 0
  {
    if xs != [] && ys != [] {
      if xs[0] != ys[0] {
        ValueLtTotal(xs[0], ys[0]);
      } else {
        assert xs == [xs[0]] + xs[1..] && ys == [ys[0]] + ys[1..];
        SeqLtTotal(xs[1..], ys[1..]);
      }
    }
  }

  lemma {:induction false} SeqLtAsymmetric(xs: seq<Value>, ys: seq<Value>)
    requires SeqLt(xs, ys)
    ensures !SeqLt(ys, xs)
  {
    if SeqLt(ys, xs) {
      SeqLtTransitive(xs, ys, xs);
      SeqLtIrreflexive(xs);
    }
  }

  /* ---------------------------------------------------------------------- */
  /* Key projections.                                                        */

  /** Every field named in `key` is present (otherwise Python raises
      KeyError when it projects the key). */
  predicate HasAll(r: Record, key: seq<string>)
  {
    forall i :: 0 <= i < |key| ==> key[i] in Names(r)
  }

  predicate AllHave(rs: seq<Record>, key: seq<string>)
  {
    forall i :: 0 <= i < |rs| ==> HasAll(rs[i], key)
  }

  /** `itemgetter(*key)(r)`, or the dict `{k: r[k] for k in key}`, as the
      tuple of the projected values; missing fields read as Null. */
  function KeyOf(r: Record, key: seq<string>): (kv: seq<Value>)
    ensures |kv| == |key|
  {
    seq(|key|, i requires 0 <= i < |key| => match Get(r, key[i]) case Some(v) => v case None => Null)
  }
}
