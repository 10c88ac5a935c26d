/** The Join node: its configuration, the renaming of shared columns, the
    four reducers it hands to a Reduce over the sorted union of both sides,
    and the cross product. */
module JoinAlgo {
  import opened Records
  import opened Stages

  /* ---------------------------------------------------------------------- */
  /* Configuration (Graph.py:149-174).                                       */

  datatype JoinConfig = JoinConfig(keys: seq<string>, strategy: string)

  /** Join's constructor: a str key becomes a one-element list, a list or
      tuple is kept, and an empty one turns "outer" into "cross". A key
      without `len()` (such as None) raises TypeError. */
  function Configure(key: KeyArg, strategy: string): (r: Result<JoinConfig>)
    ensures r.Err? <==> key.OtherType?
    ensures r.Err? ==> r.error == TypeError
    ensures key.KeyName? ==> r.value.keys == [key.name]
    ensures key.KeyList? || key.KeyTuple? ==> r.value.keys == key.names
    ensures r.Ok? ==> (r.value.strategy != strategy <==> !key.KeyName? && key.names == [] && strategy == "outer")
    ensures r.Ok? ==> r.value.strategy == strategy || r.value.strategy == "cross"
  {
    match key
    case KeyName(k) => Ok(JoinConfig([k], strategy))
    case KeyList(ks) => ConfigureKeys(ks, strategy)
    case KeyTuple(ks) => ConfigureKeys(ks, strategy)
    case OtherType => Err(TypeError)
  }

  /** The branch for a key that has `len()`: kept when non-empty, else an
      empty key list. */
  function ConfigureKeys(ks: seq<string>, strategy: string): Result<JoinConfig>
  {
    if |ks| > 0 then Ok(JoinConfig(ks, strategy))
    else Ok(JoinConfig([], if strategy == "outer" then "cross" else strategy))
  }

  /* ---------------------------------------------------------------------- */
  /* Shared columns (Graph.py:198-209).                                      */

  /** The names of `ns` that also occur in `other` and are not join keys,
      in the order of `ns`. */
  function Common(ns: seq<string>, other: seq<string>, keys: seq<string>): (cs: seq<string>)
    ensures forall c :: c in cs <==> c in ns && c in other && c !in keys
    ensures Distinct(ns) ==> Distinct(cs)
  {
    if ns == [] then []
    else
      var rest := Common(ns[1..], other, keys);
      assert forall c :: c in ns <==> c == ns[0] || c in ns[1..] by {
        assert ns == [ns[0]] + ns[1..];
      }
      if ns[0] in other && ns[0] !in keys then [ns[0]] + rest else rest
  }

  /** `r[prefix + c] = r.pop(c)` for each column in turn; KeyError when a
      column is missing at its turn. */
  function RenameRecord(r: Record, cols: seq<string>, prefix: string): (r': Result<Record>)
    ensures r'.Err? ==> r'.error == KeyError
    decreases |cols|
  {
    if cols == [] then Ok(r)
    else if cols[0] !in Names(r) then Err(KeyError)
    else RenameRecord(Rename(r, cols[0], prefix + cols[0]), cols[1..], prefix)
  }

  /** The renaming applied to every record of one side. */
  function RenameRecords(rs: seq<Record>, cols: seq<string>, prefix: string): (r: Result<seq<Record>>)
    ensures r.Ok? ==> |r.value| == |rs|
    ensures r.Err? ==> r.error == KeyError
    ensures r.Ok? <==> forall i :: 0 <= i < |rs| ==> RenameRecord(rs[i], cols, prefix).Ok?
    ensures r.Ok? ==> forall i :: 0 <= i < |rs| ==> r.value[i] == RenameRecord(rs[i], cols, prefix).value
  {
    if rs == [] then Ok([])
    else
      match RenameRecord(rs[0], cols, prefix)
      case Err(e) => Err(e)
      case Ok(r0) =>
        match RenameRecords(rs[1..], cols, prefix)
        case Err(e) => Err(e)
        case Ok(rest) => Ok([r0] + rest)
  }

  /** No renamed name is already taken, and no column is the renamed form
      of another. */
  predicate NoClash(ns: seq<string>, cols: seq<string>, prefix: string)
  {
    && (forall c :: c in cols ==> prefix + c !in ns)
    && (forall c, d :: c in cols && d in cols ==> c != prefix + d)
  }

  /** When renamed names are free, renaming succeeds exactly when every
      column is present; afterwards each column's value sits under its
      prefixed name, the column itself is gone, every other field is as
      it was, and the record is still a dict. */
  lemma {:induction false} RenameRecordEffect(r: Record, cols: seq<string>, prefix: string)
    requires WellFormed(r) && Distinct(cols) && NoClash(Names(r), cols, prefix)
    decreases |cols|
    ensures RenameRecord(r, cols, prefix).Ok? <==> forall c :: c in cols ==> c in Names(r)
    ensures RenameRecord(r, cols, prefix).Ok? ==>
      var r' := RenameRecord(r, cols, prefix).value;
      && WellFormed(r')
      && (forall c :: c in cols ==> Get(r', prefix + c) == Get(r, c) && Get(r', c) == None)
      && (forall k :: k !in cols && (forall c :: c in cols ==> k != prefix + c) ==> Get(r', k) == Get(r, k))
  {
    if cols != [] && cols[0] in Names(r) {
      var c0, t := cols[0], cols[1..];
      var n0 := prefix + c0;
      assert cols == [c0] + t;
      RenameOne(r, c0, n0);
      var r1 := Rename(r, c0, n0);
      RenameKeepsNoClash(r, c0, t, prefix);
      RenameRecordEffect(r1, t, prefix);
      if RenameRecord(r, cols, prefix).Ok? {
        var r' := RenameRecord(r, cols, prefix).value;
        assert r' == RenameRecord(r1, t, prefix).value;
        forall c | c in cols ensures Get(r', prefix + c) == Get(r, c) && Get(r', c) == None {
          if c == c0 {
            assert forall d :: d in t ==> c0 != d && n0 != prefix + d && c0 != prefix + d && n0 != d;
          }
        }
      }
    }
  }

  /** One step of the renaming: `r[n] = r.pop(c)`. */
  lemma {:induction false} RenameOne(r: Record, c: string, n: string)
    requires WellFormed(r) && c in Names(r) && n !in Names(r)
    ensures var r1 := Rename(r, c, n);
      && WellFormed(r1)
      && Get(r1, n) == Get(r, c) && Get(r1, c) == None
      && (forall k :: k != c && k != n ==> Get(r1, k) == Get(r, k))
      && (forall k :: k in Names(r1) ==> k == n || k in Names(r))
  {
    RemoveWellFormed(r, c);
    AssignWellFormed(Remove(r, c), n, Get(r, c).value);
    var r1 := Rename(r, c, n);
    forall k | k in Names(r1) ensures k == n || k in Names(r) {
      if k != n && k != c {
        assert Get(r1, k) == Get(r, k);
      }
    }
  }

  /** After the first column is renamed the rest still meet `NoClash`, and
      are present exactly when they were. */
  lemma {:induction false} RenameKeepsNoClash(r: Record, c0: string, t: seq<string>, prefix: string)
    requires WellFormed(r) && c0 in Names(r) && Distinct([c0] + t) && NoClash(Names(r), [c0] + t, prefix)
    ensures NoClash(Names(Rename(r, c0, prefix + c0)), t, prefix)
    ensures forall c :: c in t ==> (c in Names(Rename(r, c0, prefix + c0)) <==> c in Names(r))
    ensures Distinct(t)
  {
    DistinctTail(c0, t);
    MemberTail(c0, t);
    var n0 := prefix + c0;
    RenameOne(r, c0, n0);
    var r1 := Rename(r, c0, n0);
    forall c | c in t ensures prefix + c !in Names(r1) {
      PrefixInjective(prefix, c, c0);
    }
    forall c | c in t ensures c in Names(r1) <==> c in Names(r) {
      assert Get(r1, c) == Get(r, c);
    }
  }

  lemma {:induction false} DistinctTail(c0: string, t: seq<string>)
    requires Distinct([c0] + t)
    ensures Distinct(t) && c0 !in t
  {
    var s := [c0] + t;
    forall i, j | 0 <= i < j < |t| ensures t[i] != t[j] {
      assert s[i + 1] == t[i] && s[j + 1] == t[j];
    }
    forall j | 0 <= j < |t| ensures t[j] != c0 {
      assert s[0] == c0 && s[j + 1] == t[j];
    }
  }

  lemma {:induction false} MemberTail(c0: string, t: seq<string>)
    ensures forall c :: c in t ==> c in [c0] + t
  {
    forall c | c in t ensures c in [c0] + t {
      var j :| 0 <= j < |t| && t[j] == c;
      assert ([c0] + t)[j + 1] == c;
    }
  }

  lemma {:induction false} PrefixInjective(prefix: string, a: string, b: string)
    ensures prefix + a == prefix + b ==> a == b
  {
    if prefix + a == prefix + b {
      assert (prefix + a)[|prefix|..] == a && (prefix + b)[|prefix|..] == b;
    }
  }

  /** The result of preparing both sides: renamed records, and the column
      lists of the first record of each side. */
  datatype Prepared = Prepared(left: seq<Record>, right: seq<Record>, leftKeys: seq<string>, rightKeys: seq<string>)

  /** IndexError when a side is empty; otherwise the shared non-key columns
      of the two first records are renamed on both sides. */
  function Prepare(keys: seq<string>, left: seq<Record>, right: seq<Record>): (r: Result<Prepared>)
    ensures r.Err? && left != [] && right != [] ==> r.error == KeyError
    ensures (left == [] || right == []) ==> r == Err(IndexError)
    ensures r.Ok? ==>
      && |r.value.left| == |left| && |r.value.right| == |right|
      && r.value.left != [] && r.value.right != []
      && r.value.leftKeys == Names(r.value.left[0])
      && r.value.rightKeys == Names(r.value.right[0])
  {
    if left == [] || right == [] then Err(IndexError)
    else
      var cols := Common(Names(left[0]), Names(right[0]), keys);
      match RenameRecords(left, cols, "left_")
      case Err(e) => Err(e)
      case Ok(l) =>
        match RenameRecords(right, cols, "right_")
        case Err(e) => Err(e)
        case Ok(rr) => Ok(Prepared(l, rr, Names(l[0]), Names(rr[0])))
  }

  /* ---------------------------------------------------------------------- */
  /* Reducers (Graph.py:226-363).                                            */

  /** The zip loop: two key lists differ at some position both have. */
  predicate ZipMismatch(a: seq<string>, b: seq<string>)
  {
    exists i :: 0 <= i < |a| && i < |b| && a[i] != b[i]
  }

  /** The loop over `zip(a, b)` that breaks at the first difference. */
  method ZipDiffers(a: seq<string>, b: seq<string>) returns (flag: bool)
    ensures flag == ZipMismatch(a, b)
  {
    flag := false;
    var i := 0;
    while i < |a| && i < |b|
      invariant 0 <= i <= |a| && i <= |b|
      invariant forall j :: 0 <= j < i ==> a[j] == b[j]
    {
      if a[i] != b[i] {
        flag := true;
        return;
      }
      i := i + 1;
    }
  }

  /** `base.update(over)`, then copied with its keys in sorted order. */
  function Merged(base: Record, over: Record): Record
  {
    SortedByName(Update(base, over))
  }

  /** A merged row has sorted, distinct names; a name of `over` reads its
      value there, any other name reads its value in `base`. */
  lemma {:induction false} MergedMeaning(base: Record, over: Record)
    requires WellFormed(base) && WellFormed(over)
    ensures StrictlySorted(Names(Merged(base, over)))
    ensures forall k :: Get(Merged(base, over), k) == if k in Names(over) then Get(over, k) else Get(base, k)
  {
    UpdateWellFormed(base, over);
    SortedByNameMeaning(Update(base, over));
    forall k ensures Get(Update(base, over), k) == if k in Names(over) then Get(over, k) else Get(base, k) {
      UpdateGet(base, over, k);
    }
  }

  /** `value.update(over)` for each value in turn, a sorted copy of each. */
  function MergeEach(rs: seq<Record>, over: Record): (out: seq<Record>)
    ensures |out| == |rs|
  {
    if rs == [] then [] else [Merged(rs[0], over)] + MergeEach(rs[1..], over)
  }

  lemma {:induction false} MergeEachAt(rs: seq<Record>, over: Record, i: nat)
    requires i < |rs|
    ensures MergeEach(rs, over)[i] == Merged(rs[i], over)
  {
    if i > 0 {
      MergeEachAt(rs[1..], over, i - 1);
    }
  }

  /** Merges a block of at least two records with equal keys. When the first
      two records' columns differ positionally, the first is taken as the one
      record of its side and merged into each of the others; otherwise the
      last is merged into each of the others. */
  function InnerReducer(g: seq<Record>): (out: seq<Record>)
    ensures |out| == if |g| <= 1 then 0 else |g| - 1
  {
    if |g| <= 1 then []
    else if ZipMismatch(Names(g[0]), Names(g[1])) then MergeEach(g[1..], g[0])
    else MergeEach(g[..|g| - 1], g[|g| - 1])
  }

  /** `{key: None for key in names if key not in exclude}`. */
  function NullPad(names: seq<string>, exclude: seq<string>): (pad: Record)
    ensures forall k :: k in Names(pad) <==> k in names && k !in exclude
    ensures forall f :: f in pad ==> f.value == Null
    ensures Distinct(names) ==> WellFormed(pad)
  {
    if names == [] then []
    else
      var rest := NullPad(names[1..], exclude);
      assert forall c :: c in names <==> c == names[0] || c in names[1..] by {
        assert names == [names[0]] + names[1..];
      }
      if names[0] !in exclude then
        NamesCons(Field(names[0], Null), rest);
        [Field(names[0], Null)] + rest
      else rest
  }

  /** A lone record laid out like the left side is padded with Null for the
      right-only columns; a lone right record yields nothing. */
  function LeftReducer(leftKeys: seq<string>, rightKeys: seq<string>, g: seq<Record>): seq<Record>
  {
    if |g| == 1 then
      if ZipMismatch(Names(g[0]), leftKeys) then []
      else [Merged(g[0], NullPad(rightKeys, leftKeys))]
    else InnerReducer(g)
  }

  /** The mirror image of LeftReducer. */
  function RightReducer(leftKeys: seq<string>, rightKeys: seq<string>, g: seq<Record>): seq<Record>
  {
    if |g| == 1 then
      if ZipMismatch(Names(g[0]), rightKeys) then []
      else [Merged(g[0], NullPad(leftKeys, rightKeys))]
    else InnerReducer(g)
  }

  /** A lone record of either side is kept and padded with Null for the
      other side's columns. */
  function OuterReducer(leftKeys: seq<string>, rightKeys: seq<string>, g: seq<Record>): seq<Record>
  {
    if |g| == 1 then
      if ZipMismatch(Names(g[0]), rightKeys) then [Merged(g[0], NullPad(rightKeys, leftKeys))]
      else [Merged(g[0], NullPad(leftKeys, rightKeys))]
    else InnerReducer(g)
  }

  /** One record of one side, keyed like several of the other whose column
      layout differs from it: it is merged into each of them. */
  lemma {:induction false} InnerOneToMany(l: Record, rs: seq<Record>)
    requires rs != [] && ZipMismatch(Names(l), Names(rs[0]))
    ensures |InnerReducer([l] + rs)| == |rs|
    ensures forall j :: 0 <= j < |rs| ==> InnerReducer([l] + rs)[j] == Merged(rs[j], l)
  {
    var g := [l] + rs;
    assert g[0] == l && g[1] == rs[0] && g[1..] == rs;
    forall j | 0 <= j < |rs| ensures InnerReducer(g)[j] == Merged(rs[j], l) {
      MergeEachAt(rs, l, j);
    }
  }

  /** Several records laid out alike, keyed like one record after them: the
      last is merged into each of them. */
  lemma {:induction false} InnerManyToOne(ls: seq<Record>, r: Record)
    requires |ls| >= 2 && !ZipMismatch(Names(ls[0]), Names(ls[1]))
    ensures |InnerReducer(ls + [r])| == |ls|
    ensures forall j :: 0 <= j < |ls| ==> InnerReducer(ls + [r])[j] == Merged(ls[j], r)
  {
    var g := ls + [r];
    assert g[0] == ls[0] && g[1] == ls[1] && g[|g| - 1] == r && g[..|g| - 1] == ls;
    forall j | 0 <= j < |ls| ensures InnerReducer(g)[j] == Merged(ls[j], r) {
      MergeEachAt(ls, r, j);
    }
  }

  /** Every row of a block keeps the block's key: the key fields of a merged
      row read the values the whole block shares. */
  lemma {:induction false} InnerKeepsKey(g: seq<Record>, keys: seq<string>)
    requires Uniform(g, keys) && AllHave(g, keys)
    requires forall i :: 0 <= i < |g| ==> WellFormed(g[i])
    ensures forall i :: 0 <= i < |InnerReducer(g)| ==> KeyOf(InnerReducer(g)[i], keys) == KeyOf(g[0], keys)
    ensures forall i :: 0 <= i < |InnerReducer(g)| ==> StrictlySorted(Names(InnerReducer(g)[i]))
  {
    var out := InnerReducer(g);
    forall i | 0 <= i < |out|
      ensures KeyOf(out[i], keys) == KeyOf(g[0], keys) && StrictlySorted(Names(out[i]))
    {
      var a, b := MergedParts(g, i);
      MergedMeaning(g[a], g[b]);
      MergedKey(g[a], g[b], keys);
      assert KeyOf(g[a], keys) == KeyOf(g[0], keys);
    }
  }

  /** The two block members merged into the `i`-th row of InnerReducer. */
  lemma {:induction false} MergedParts(g: seq<Record>, i: nat) returns (a: nat, b: nat)
    requires i < |InnerReducer(g)|
    ensures a < |g| && b < |g| && a != b
    ensures InnerReducer(g)[i] == Merged(g[a], g[b])
  {
    if ZipMismatch(Names(g[0]), Names(g[1])) {
      a, b := i + 1, 0;
      assert InnerReducer(g) == MergeEach(g[1..], g[0]);
      MergeEachAt(g[1..], g[0], i);
      assert g[1..][i] == g[a];
    } else {
      a, b := i, |g| - 1;
      assert InnerReducer(g) == MergeEach(g[..|g| - 1], g[|g| - 1]);
      MergeEachAt(g[..|g| - 1], g[|g| - 1], i);
      assert g[..|g| - 1][i] == g[a];
    }
  }

  /** Merging two records with the same key tuple keeps that key tuple. */
  lemma {:induction false} MergedKey(base: Record, over: Record, keys: seq<string>)
    requires WellFormed(base) && WellFormed(over)
    requires HasAll(base, keys) && HasAll(over, keys) && KeyOf(base, keys) == KeyOf(over, keys)
    ensures KeyOf(Merged(base, over), keys) == KeyOf(base, keys)
  {
    MergedMeaning(base, over);
    var m := Merged(base, over);
    forall i | 0 <= i < |keys| ensures KeyOf(m, keys)[i] == KeyOf(base, keys)[i] {
      assert Get(m, keys[i]) == Get(over, keys[i]);
      assert KeyOf(over, keys)[i] == KeyOf(base, keys)[i];
    }
  }

  /** A lone left record, laid out like the left side: one row, with every
      right-only column Null and every other field as it was. */
  lemma {:induction false} LeftLoneRecord(leftKeys: seq<string>, rightKeys: seq<string>, l: Record)
    requires WellFormed(l) && Distinct(rightKeys)
    requires !ZipMismatch(Names(l), leftKeys)
    ensures |LeftReducer(leftKeys, rightKeys, [l])| == 1
    ensures var row := LeftReducer(leftKeys, rightKeys, [l])[0];
      && StrictlySorted(Names(row))
      && forall k :: Get(row, k) == if k in rightKeys && k !in leftKeys then Some(Null) else Get(l, k)
  {
    var pad := NullPad(rightKeys, leftKeys);
    MergedMeaning(l, pad);
    forall k | k in Names(pad) ensures Get(pad, k) == Some(Null) {
      assert Field(k, Get(pad, k).value) in pad;
    }
  }

  /** A lone right record, laid out like the right side: one row, with
      every left-only column Null and every other field as it was. */
  lemma {:induction false} RightLoneRecord(leftKeys: seq<string>, rightKeys: seq<string>, x: Record)
    requires WellFormed(x) && Distinct(leftKeys)
    requires !ZipMismatch(Names(x), rightKeys)
    ensures |RightReducer(leftKeys, rightKeys, [x])| == 1
    ensures var row := RightReducer(leftKeys, rightKeys, [x])[0];
      && StrictlySorted(Names(row))
      && forall k :: Get(row, k) == if k in leftKeys && k !in rightKeys then Some(Null) else Get(x, k)
  {
    PaddedLone(x, leftKeys, rightKeys);
  }

  /** A lone record of the outer join: laid out like the right side, it is
      padded with Null for the left-only columns; otherwise for the
      right-only columns. Every other field is kept. */
  lemma {:induction false} OuterLonePadded(leftKeys: seq<string>, rightKeys: seq<string>, x: Record)
    requires WellFormed(x) && Distinct(leftKeys) && Distinct(rightKeys)
    ensures var row := OuterReducer(leftKeys, rightKeys, [x])[0];
      && StrictlySorted(Names(row))
      && (!ZipMismatch(Names(x), rightKeys) ==>
            forall k :: Get(row, k) == if k in leftKeys && k !in rightKeys then Some(Null) else Get(x, k))
      && (ZipMismatch(Names(x), rightKeys) ==>
            forall k :: Get(row, k) == if k in rightKeys && k !in leftKeys then Some(Null) else Get(x, k))
  {
    if ZipMismatch(Names(x), rightKeys) {
      PaddedLone(x, rightKeys, leftKeys);
    } else {
      PaddedLone(x, leftKeys, rightKeys);
    }
  }

  /** A record merged with the Null padding of `names` minus `exclude`. */
  lemma {:induction false} PaddedLone(x: Record, names: seq<string>, exclude: seq<string>)
    requires WellFormed(x) && Distinct(names)
    ensures var row := Merged(x, NullPad(names, exclude));
      && StrictlySorted(Names(row))
      && forall k :: Get(row, k) == if k in names && k !in exclude then Some(Null) else Get(x, k)
  {
    var pad := NullPad(names, exclude);
    MergedMeaning(x, pad);
    forall k | k in Names(pad) ensures Get(pad, k) == Some(Null) {
      assert Field(k, Get(pad, k).value) in pad;
    }
  }

  /** The outer join keeps every lone record: exactly one row per block of
      one. */
  lemma {:induction false} OuterLoneRecord(leftKeys: seq<string>, rightKeys: seq<string>, x: Record)
    ensures |OuterReducer(leftKeys, rightKeys, [x])| == 1
    ensures |LeftReducer(leftKeys, rightKeys, [x])| == (if ZipMismatch(Names(x), leftKeys) then 0 else 1)
    ensures |RightReducer(leftKeys, rightKeys, [x])| == (if ZipMismatch(Names(x), rightKeys) then 0 else 1)
  {
  }

  /* ---------------------------------------------------------------------- */
  /* Cross product (Graph.py:365-376).                                       */

  /** The rows built from one left record: it absorbs each right record in
      turn, and a sorted copy is taken after each. */
  function CrossRow(acc: Record, right: seq<Record>): (rows: seq<Record>)
    ensures |rows| == |right|
    decreases |right|
  {
    if right == [] then []
    else [SortedByName(Update(acc, right[0]))] + CrossRow(Update(acc, right[0]), right[1..])
  }

  function CrossJoin(left: seq<Record>, right: seq<Record>): seq<Record>
  {
    if left == [] then [] else CrossRow(left[0], right) + CrossJoin(left[1..], right)
  }

  /** All fields of a sequence of records, in order. */
  function Concat(rs: seq<Record>): Record
  {
    if rs == [] then [] else Concat(rs[..|rs| - 1]) + rs[|rs| - 1]
  }

  /** The left record after it has absorbed the first `j` right records. */
  function Absorbed(acc: Record, right: seq<Record>, j: nat): Record
    requires j <= |right|
    decreases j
  {
    if j == 0 then acc else Absorbed(Update(acc, right[0]), right[1..], j - 1)
  }

  /** The `j`-th row of a left record is a sorted copy of it after it has
      absorbed right records 0 to `j`. */
  lemma {:induction false} CrossRowAbsorbed(acc: Record, right: seq<Record>, j: nat)
    requires j < |right|
    ensures CrossRow(acc, right)[j] == SortedByName(Update(Absorbed(acc, right, j), right[j]))
    decreases j
  {
    if j > 0 {
      CrossRowAbsorbed(Update(acc, right[0]), right[1..], j - 1);
      CrossRowShift(acc, right, j);
    } else {
      CrossRowFirst(acc, right);
    }
  }

  lemma {:induction false} CrossRowShift(acc: Record, right: seq<Record>, j: nat)
    requires 0 < j < |right|
    requires CrossRow(Update(acc, right[0]), right[1..])[j - 1]
      == SortedByName(Update(Absorbed(Update(acc, right[0]), right[1..], j - 1), right[1..][j - 1]))
    ensures CrossRow(acc, right)[j] == SortedByName(Update(Absorbed(acc, right, j), right[j]))
  {
    assert right[1..][j - 1] == right[j];
  }

  lemma {:induction false} CrossRowFirst(acc: Record, right: seq<Record>)
    requires 0 < |right|
    ensures CrossRow(acc, right)[0] == SortedByName(Update(Absorbed(acc, right, 0), right[0]))
  {
  }

  /** Absorbing right records one by one is one update with all their
      fields in order. */
  lemma {:induction false} AbsorbedUpdate(acc: Record, right: seq<Record>, j: nat)
    requires j <= |right|
    ensures Absorbed(acc, right, j) == Update(acc, Concat(right[..j]))
    decreases j
  {
    if j == 0 {
      assert right[..0] == [];
    } else {
      AbsorbedUpdate(Update(acc, right[0]), right[1..], j - 1);
      assert right[1..][..j - 1] == right[1..j];
      UpdatePrefix(acc, right, j);
    }
  }

  /** The `j`-th row of a left record has absorbed right records 0 to `j`:
      fields of earlier right records stay unless a later one overwrites them. */
  lemma {:induction false} CrossRowAt(acc: Record, right: seq<Record>, j: nat)
    requires j < |right|
    ensures CrossRow(acc, right)[j] == SortedByName(Update(Update(acc, Concat(right[..j])), right[j]))
  {
    CrossRowAbsorbed(acc, right, j);
    AbsorbedUpdate(acc, right, j);
  }

  /** Absorbing the first right record, then the next ones, absorbs them all. */
  lemma {:induction false} UpdatePrefix(acc: Record, right: seq<Record>, j: nat)
    requires 0 < j <= |right|
    ensures Update(Update(acc, right[0]), Concat(right[1..j])) == Update(acc, Concat(right[..j]))
  {
    UpdateAppend(acc, right[0], Concat(right[1..j]));
    ConcatCons(right[0], right[1..j]);
    assert right[..j] == [right[0]] + right[1..j];
  }

  lemma {:induction false} ConcatCons(r: Record, rs: seq<Record>)
    ensures Concat([r] + rs) == r + Concat(rs)
    decreases |rs|
  {
    if rs == [] {
      assert [r] + rs == [r];
      assert [r][..0] == [];
    } else {
      var t := [r] + rs;
      assert t[..|t| - 1] == [r] + rs[..|rs| - 1];
      ConcatCons(r, rs[..|rs| - 1]);
    }
  }

  /** The right record of a cross row wins: each of its fields reads its own
      value, and the row has sorted, distinct names. */
  lemma {:induction false} CrossRowRightWins(acc: Record, right: seq<Record>, j: nat, k: string)
    requires j < |right| && WellFormed(acc) && WellFormed(right[j])
    requires forall i :: 0 <= i < |right| ==> WellFormed(right[i])
    requires k in Names(right[j])
    ensures Get(CrossRow(acc, right)[j], k) == Get(right[j], k)
    ensures StrictlySorted(Names(CrossRow(acc, right)[j]))
  {
    CrossRowAt(acc, right, j);
    var base := Update(acc, Concat(right[..j]));
    UpdateWellFormed(acc, Concat(right[..j]));
    MergedMeaning(base, right[j]);
  }

  /** Every pair of a left and a right record gives one row. */
  lemma {:induction false} CrossJoinCount(left: seq<Record>, right: seq<Record>)
    ensures |CrossJoin(left, right)| == |left| * |right|
  {
    if left != [] {
      CrossJoinCount(left[1..], right);
      assert |left| * |right| == |right| + (|left| - 1) * |right|;
    }
  }

  /** One more right record absorbed is one more update. */
  lemma {:induction false} AbsorbedSnoc(acc: Record, right: seq<Record>, j: nat)
    requires j < |right|
    ensures Absorbed(acc, right, j + 1) == Update(Absorbed(acc, right, j), right[j])
  {
    AbsorbedUpdate(acc, right, j);
    AbsorbedUpdate(acc, right, j + 1);
    assert right[..j + 1][..j] == right[..j];
    UpdateAppend(acc, Concat(right[..j]), right[j]);
  }

  /** The left records as the cross join leaves them: `first_dict` is
      updated in place, so each has absorbed every right record. */
  function CrossLeft(left: seq<Record>, right: seq<Record>): seq<Record>
  {
    seq(|left|, i requires 0 <= i < |left| => Absorbed(left[i], right, |right|))
  }

  /** Each left record left behind holds all right records' fields, later
      ones winning, and the last row built from it is its sorted copy. */
  lemma {:induction false} CrossLeftAt(left: seq<Record>, right: seq<Record>, i: nat)
    requires i < |left|
    ensures |CrossLeft(left, right)| == |left|
    ensures CrossLeft(left, right)[i] == Update(left[i], Concat(right))
    ensures right != [] ==> CrossRow(left[i], right)[|right| - 1] == SortedByName(CrossLeft(left, right)[i])
  {
    AbsorbedUpdate(left[i], right, |right|);
    assert right[..|right|] == right;
    if right != [] {
      CrossRowAbsorbed(left[i], right, |right| - 1);
      AbsorbedSnoc(left[i], right, |right| - 1);
    }
  }

  /** The inner loop of the cross join: one left record absorbs the right
      records one by one and a sorted copy is yielded after each; `last` is
      the record as the loop leaves it. */
  method CrossRowRun(first: Record, right: seq<Record>) returns (rows: seq<Record>, last: Record)
    ensures rows == CrossRow(first, right)
    ensures last == Absorbed(first, right, |right|)
  {
    var acc := first;
    rows := [];
    var j := 0;
    while j < |right|
      invariant 0 <= j <= |right|
      invariant rows + CrossRow(acc, right[j..]) == CrossRow(first, right)
      invariant acc == Absorbed(first, right, j)
    {
      CrossRowTurn(first, right, j, acc, rows);
      acc := Update(acc, right[j]);
      rows := rows + [SortedByName(acc)];
      j := j + 1;
    }
    assert right[j..] == [];
    last := acc;
  }

  /** One turn of the inner loop of the cross join keeps its invariant. */
  lemma {:induction false} CrossRowTurn(first: Record, right: seq<Record>, j: nat, acc: Record, rows: seq<Record>)
    requires j < |right|
    requires rows + CrossRow(acc, right[j..]) == CrossRow(first, right)
    requires acc == Absorbed(first, right, j)
    ensures (rows + [SortedByName(Update(acc, right[j]))]) + CrossRow(Update(acc, right[j]), right[j + 1..]) == CrossRow(first, right)
    ensures Update(acc, right[j]) == Absorbed(first, right, j + 1)
  {
    CrossRowStep(acc, right, j);
    AbsorbedSnoc(first, right, j);
    var next := Update(acc, right[j]);
    assert (rows + [SortedByName(next)]) + CrossRow(next, right[j + 1..]) == rows + ([SortedByName(next)] + CrossRow(next, right[j + 1..]));
  }

  lemma {:induction false} CrossRowStep(acc: Record, right: seq<Record>, j: nat)
    requires j < |right|
    ensures CrossRow(acc, right[j..]) == [SortedByName(Update(acc, right[j]))] + CrossRow(Update(acc, right[j]), right[j + 1..])
  {
    var rest := right[j..];
    assert rest[0] == right[j] && rest[1..] == right[j + 1..];
  }

  /** The outer loop of the cross join, over the left records, which it
      leaves updated as `CrossLeft` says. */
  method CrossRun(left: seq<Record>, right: seq<Record>) returns (out: seq<Record>, left': seq<Record>)
    ensures out == CrossJoin(left, right)
    ensures left' == CrossLeft(left, right)
  {
    out := [];
    left' := [];
    var i := 0;
    while i < |left|
      invariant 0 <= i <= |left|
      invariant out + CrossJoin(left[i..], right) == CrossJoin(left, right)
      invariant left' == CrossLeft(left, right)[..i]
    {
      CrossJoinStep(left, right, i);
      var rows, last := CrossRowRun(left[i], right);
      out := out + rows;
      CrossLeftStep(left, right, i);
      left' := left' + [last];
      i := i + 1;
    }
    CrossLeftStep(left, right, i);
  }

  lemma {:induction false} CrossJoinStep(left: seq<Record>, right: seq<Record>, i: nat)
    requires i < |left|
    ensures CrossJoin(left[i..], right) == CrossRow(left[i], right) + CrossJoin(left[i + 1..], right)
  {
    var rest := left[i..];
    assert rest[0] == left[i] && rest[1..] == left[i + 1..];
  }

  lemma {:induction false} CrossLeftStep(left: seq<Record>, right: seq<Record>, i: nat)
    requires i <= |left|
    ensures i < |left| ==> CrossLeft(left, right)[..i + 1] == CrossLeft(left, right)[..i] + [Absorbed(left[i], right, |right|)]
    ensures i == |left| ==> CrossLeft(left, right)[..i] == CrossLeft(left, right)
  {
  }

  /* ---------------------------------------------------------------------- */
  /* Strategies (Graph.py:176-224, 258-363).                                 */

  /** Sort the union on the keys, then reduce it block by block. */
  function SortReduce(keys: seq<string>, summary: seq<Record>, op: seq<Record> -> seq<Record>): Result<seq<Record>>
  {
    match SortRecords(keys, summary)
    case Err(e) => Err(e)
    case Ok(sorted) => ReduceSpec(op, Keys(keys), sorted)
  }

  /** The rows a Join yields once both sides are prepared: inner and left
      sort left records before right ones, right and outer the other way
      round; an unknown strategy yields nothing. */
  function JoinRows(keys: seq<string>, strategy: string, p: Prepared): Result<seq<Record>>
  {
    var lk, rk := p.leftKeys, p.rightKeys;
    if strategy == "inner" then SortReduce(keys, p.left + p.right, g => InnerReducer(g))
    else if strategy == "left" then SortReduce(keys, p.left + p.right, g => LeftReducer(lk, rk, g))
    else if strategy == "right" then SortReduce(keys, p.right + p.left, g => RightReducer(lk, rk, g))
    else if strategy == "outer" then SortReduce(keys, p.right + p.left, g => OuterReducer(lk, rk, g))
    else if strategy == "cross" then Ok(CrossJoin(p.left, p.right))
    else Ok([])
  }

  /** The left graph's records once a Join has run on prepared sides: the
      cross join updates them in place; the keyed strategies are taken to
      leave them as prepared. */
  function LeftAfter(strategy: string, p: Prepared): seq<Record>
  {
    if strategy == "cross" then CrossLeft(p.left, p.right) else p.left
  }

  /** Join.run's dispatch on the strategy: the cross product is built by
      its loop, the keyed strategies sort and reduce. `left'` is the left
      records afterwards. */
  method RunStrategy(keys: seq<string>, strategy: string, p: Prepared) returns (r: Result<seq<Record>>, left': seq<Record>)
    ensures r == JoinRows(keys, strategy, p)
    ensures left' == LeftAfter(strategy, p)
  {
    if strategy == "cross" {
      var rows;
      rows, left' := CrossRun(p.left, p.right);
      r := Ok(rows);
    } else {
      r := JoinRows(keys, strategy, p);
      left' := p.left;
    }
  }

  /** Once both sides are prepared, a Join yields the rows of its strategy. */
  lemma {:induction false} JoinRunRows(cfg: JoinConfig, left: seq<Record>, right: seq<Record>)
    ensures Prepare(cfg.keys, left, right).Err? ==> JoinRun(cfg, left, right) == Err(Prepare(cfg.keys, left, right).error)
    ensures Prepare(cfg.keys, left, right).Ok? ==>
      var rows := JoinRows(cfg.keys, cfg.strategy, Prepare(cfg.keys, left, right).value);
      && (rows.Err? ==> JoinRun(cfg, left, right) == Err(rows.error))
      && (rows.Ok? ==> JoinRun(cfg, left, right) == Ok(JoinResult(Prepare(cfg.keys, left, right).value, rows.value)))
  {
  }

  /** A keyed strategy fails exactly when the keys are empty or a record
      lacks a key field; then the reducer sees the blocks of the stably
      sorted union, one block per key tuple, in increasing key order. */
  lemma {:induction false} SortReduceMeaning(keys: seq<string>, summary: seq<Record>, op: seq<Record> -> seq<Record>)
    ensures SortReduce(keys, summary, op).Ok? <==> keys != [] && AllHave(summary, keys)
    ensures keys == [] ==> SortReduce(keys, summary, op) == Err(TypeError)
    ensures keys != [] && !AllHave(summary, keys) ==> SortReduce(keys, summary, op) == Err(KeyError)
    ensures SortReduce(keys, summary, op).Ok? ==>
      var gs := Groups(StableSort(summary, keys), keys);
      && SortReduce(keys, summary, op).value == ApplyGroups(op, gs)
      && Flatten(gs) == StableSort(summary, keys)
      && (forall i, j :: 0 <= i < j < |gs| ==> SeqLt(KeyOf(gs[i][0], keys), KeyOf(gs[j][0], keys)))
  {
    if keys != [] && AllHave(summary, keys) {
      var sorted := StableSort(summary, keys);
      forall i | 0 <= i < |sorted| ensures HasAll(sorted[i], keys) {
        assert sorted[i] in multiset(summary);
      }
      assert AllHave(sorted, keys);
      assert SortReduce(keys, summary, op) == Ok(ApplyGroups(op, Groups(sorted, keys)));
      StableSortSorted(summary, keys);
      GroupsFlatten(sorted, keys);
      GroupsOfSorted(sorted, keys);
    }
  }

  /** What a Join yields: the prepared sides and the rows. */
  datatype JoinResult = JoinResult(prepared: Prepared, rows: seq<Record>)

  function JoinRun(cfg: JoinConfig, left: seq<Record>, right: seq<Record>): (r: Result<JoinResult>)
    ensures (left == [] || right == []) ==> r == Err(IndexError)
  {
    match Prepare(cfg.keys, left, right)
    case Err(e) => Err(e)
    case Ok(p) =>
      match JoinRows(cfg.keys, cfg.strategy, p)
      case Err(e) => Err(e)
      case Ok(rows) => Ok(JoinResult(p, rows))
  }

  /** A cross join pairs every left record with every right record. */
  lemma {:induction false} CrossJoinRunCount(cfg: JoinConfig, left: seq<Record>, right: seq<Record>)
    requires cfg.strategy == "cross"
    ensures JoinRun(cfg, left, right).Ok? ==> |JoinRun(cfg, left, right).value.rows| == |left| * |right|
  {
    if Prepare(cfg.keys, left, right).Ok? {
      var p := Prepare(cfg.keys, left, right).value;
      CrossRowsCount(cfg.keys, cfg.strategy, p, |left|, |right|);
    }
  }

  lemma {:induction false} CrossRowsCount(keys: seq<string>, strategy: string, p: Prepared, m: nat, n: nat)
    requires strategy == "cross" && |p.left| == m && |p.right| == n
    ensures JoinRows(keys, strategy, p) == Ok(CrossJoin(p.left, p.right))
    ensures |CrossJoin(p.left, p.right)| == m * n
  {
    CrossJoinCount(p.left, p.right);
  }
}
