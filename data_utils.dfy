/** The list-of-record utilities: cleaning, validation, filtering, sorting,
    grouping, merging and splitting of lists of dicts. Each utility that
    builds its result in a loop is a method whose `ensures` ties the result
    to a specification function (or, for validate_data, states the
    condition outright); the properties of those functions are lemmas. */
module DataUtils {

  import opened Values

  /** One record: a dict from field name to value. */
  type Item = map<string, Value>

  // -----------------------------------------------------------------------
  // Subsequences
  // -----------------------------------------------------------------------

  /** `a` is `b` with some elements left out and the rest in order
      (matched greedily from the end). */
  predicate IsSubsequence<T(==)>(a: seq<T>, b: seq<T>)
    decreases |b|
  {
    if |a| == 0 then true
    else if |b| == 0 then false
    else if a[|a| - 1] == b[|b| - 1] then IsSubsequence(a[..|a| - 1], b[..|b| - 1])
    else IsSubsequence(a, b[..|b| - 1])
  }

  lemma {:induction false} SubsequenceExtend<T>(a: seq<T>, b: seq<T>, x: T)
    requires IsSubsequence(a, b)
    ensures IsSubsequence(a, b + [x])
    decreases |b|, 1
  {
    assert (b + [x])[..|b|] == b;
    if |a| > 0 && a[|a| - 1] == x {
      SubsequenceDropLast(a, b);
    }
  }

  lemma {:induction false} SubsequenceDropLast<T>(a: seq<T>, b: seq<T>)
    requires |a| > 0 && IsSubsequence(a, b)
    ensures IsSubsequence(a[..|a| - 1], b)
    decreases |b|, 0
  {
    var b' := b[..|b| - 1];
    assert b == b' + [b[|b| - 1]];
    if a[|a| - 1] == b[|b| - 1] {
      SubsequenceExtend(a[..|a| - 1], b', b[|b| - 1]);
    } else {
      SubsequenceDropLast(a, b');
      SubsequenceExtend(a[..|a| - 1], b', b[|b| - 1]);
    }
  }

  /** The positions of `s` whose element passes `p`. */
  function Positions<T>(s: seq<T>, p: T -> bool): set<int> {
    set i | 0 <= i < |s| && p(s[i])
  }

  lemma PositionsSnoc<T>(s: seq<T>, x: T, p: T -> bool)
    ensures |Positions(s + [x], p)| == |Positions(s, p)| + if p(x) then 1 else 0
  {
    var before, after := Positions(s, p), Positions(s + [x], p);
    assert |s| !in before;
    if p(x) {
      assert after == before + {|s|};
    } else {
      assert after == before;
    }
  }

  // -----------------------------------------------------------------------
  // clean_data
  // -----------------------------------------------------------------------

  /** The dict comprehension of clean_data: keep the fields whose value is
      neither None nor "". */
  function CleanItem(item: Item): (r: Item)
    ensures r.Keys <= item.Keys
    ensures forall k :: k in r ==> r[k] == item[k] && r[k] != Null && r[k] != Str("")
    ensures forall k :: k in item && item[k] != Null && item[k] != Str("") ==> k in r
  {
    map k | k in item && item[k] != Null && item[k] != Str("") :: item[k]
  }

  /** A record clean_data can output: non-empty, with no None and no "". */
  predicate IsClean(item: Item) {
    item != map[] && forall k :: k in item ==> item[k] != Null && item[k] != Str("")
  }

  /** The specification of clean_data: the cleaned records, empty ones dropped. */
  function Cleaned(data: seq<Item>): seq<Item> {
    if |data| == 0 then []
    else
      var item := CleanItem(data[|data| - 1]);
      Cleaned(data[..|data| - 1]) + if item != map[] then [item] else []
  }

  method CleanData(data: seq<Item>) returns (cleaned: seq<Item>)
    ensures cleaned == Cleaned(data)
    ensures |cleaned| <= |data|
    ensures forall i :: 0 <= i < |cleaned| ==> IsClean(cleaned[i])
  {
    cleaned := [];
    var i := 0;
    while i < |data|
      invariant 0 <= i <= |data|
      invariant cleaned == Cleaned(data[..i])
    {
      assert data[..i + 1][..i] == data[..i];
      var item := CleanItem(data[i]);
      if item != map[] {
        cleaned := cleaned + [item];
      }
      i := i + 1;
    }
    assert data[..|data|] == data;
    CleanedIsClean(data);
  }

  lemma {:induction false} CleanedIsClean(data: seq<Item>)
    ensures |Cleaned(data)| <= |data|
    ensures forall i :: 0 <= i < |Cleaned(data)| ==> IsClean(Cleaned(data)[i])
  {
    if |data| > 0 {
      CleanedIsClean(data[..|data| - 1]);
    }
  }

  /** Every record cleaned, in input order. */
  function CleanEach(data: seq<Item>): (r: seq<Item>)
    ensures |r| == |data| && forall i :: 0 <= i < |data| ==> r[i] == CleanItem(data[i])
  {
    seq(|data|, i requires 0 <= i < |data| => CleanItem(data[i]))
  }

  /** clean_data keeps the order of the records it keeps: its output is a
      subsequence of the cleaned input. */
  lemma {:induction false} CleanedIsSubsequence(data: seq<Item>)
    ensures IsSubsequence(Cleaned(data), CleanEach(data))
  {
    if |data| > 0 {
      var init := data[..|data| - 1];
      CleanedIsSubsequence(init);
      var e := CleanEach(data);
      assert e[..|e| - 1] == CleanEach(init);
      assert e == CleanEach(init) + [CleanItem(data[|data| - 1])];
      if CleanItem(data[|data| - 1]) != map[] {
        var c := Cleaned(data);
        assert c[..|c| - 1] == Cleaned(init);
      } else {
        assert Cleaned(data) == Cleaned(init);
        SubsequenceExtend(Cleaned(init), CleanEach(init), CleanItem(data[|data| - 1]));
      }
    }
  }

  /** clean_data drops only the records that clean to an empty dict: every
      non-empty cleaned record is in the result, and the result has one
      record per such input record. */
  lemma {:induction false} CleanedComplete(data: seq<Item>)
    ensures |Cleaned(data)| == |Positions(data, (item: Item) => CleanItem(item) != map[])|
    ensures forall i :: 0 <= i < |data| && CleanItem(data[i]) != map[] ==> CleanItem(data[i]) in Cleaned(data)
  {
    if |data| > 0 {
      var n := |data| - 1;
      var init := data[..n];
      CleanedComplete(init);
      assert data == init + [data[n]];
      PositionsSnoc(init, data[n], (item: Item) => CleanItem(item) != map[]);
      var item := CleanItem(data[n]);
      if item != map[] {
        assert Cleaned(data) == Cleaned(init) + [item];
      } else {
        assert Cleaned(data) == Cleaned(init);
      }
    }
  }

  /** Cleaning twice is cleaning once. */
  lemma {:induction false} CleanedIdempotent(data: seq<Item>)
    ensures Cleaned(Cleaned(data)) == Cleaned(data)
  {
    if |data| > 0 {
      var init := data[..|data| - 1];
      CleanedIdempotent(init);
      CleanedIsClean(data);
      var c := Cleaned(data);
      var item := CleanItem(data[|data| - 1]);
      if item != map[] {
        assert c == Cleaned(init) + [item];
        assert c[..|c| - 1] == Cleaned(init);
        assert IsClean(item);
        assert CleanItem(item) == item;
      } else {
        assert c == Cleaned(init);
      }
    }
  }

  // -----------------------------------------------------------------------
  // validate_data
  // -----------------------------------------------------------------------

  /** `field in item and item[field] is not None` */
  predicate HasValue(item: Item, field: string) {
    field in item && item[field] != Null
  }

  method ValidateData(data: seq<Item>, required: seq<string>) returns (ok: bool)
    ensures ok <==> |data| > 0 && forall i, j :: 0 <= i < |data| && 0 <= j < |required| ==> HasValue(data[i], required[j])
  {
    if |data| == 0 {
      return false;
    }
    var i := 0;
    while i < |data|
      invariant 0 <= i <= |data|
      invariant forall i', j :: 0 <= i' < i && 0 <= j < |required| ==> HasValue(data[i'], required[j])
    {
      var j := 0;
      while j < |required|
        invariant 0 <= j <= |required|
        invariant forall j' :: 0 <= j' < j ==> HasValue(data[i], required[j'])
      {
        if required[j] !in data[i] || data[i][required[j]] == Null {
          return false;
        }
        j := j + 1;
      }
      i := i + 1;
    }
    return true;
  }

  // -----------------------------------------------------------------------
  // filter_data
  // -----------------------------------------------------------------------

  /** The `value` argument of filter_data: one value, or a list of values
      (the usual right operand of "in" and "not in"). */
  datatype Operand = One(v: Value) | Many(vs: seq<Value>)

  predicate IsPrefix(a: string, b: string) {
    |a| <= |b| && b[..|a|] == a
  }

  /** Python's `a in b` on two strings. */
  predicate IsSubstring(a: string, b: string)
    decreases |b|
  {
    IsPrefix(a, b) || (|b| > 0 && IsSubstring(a, b[1..]))
  }

  /** Whether `x in container` evaluates without a TypeError: membership in
      a list, or a string inside a string. */
  predicate CanContain(container: Operand, x: Value) {
    container.Many? || (container.v.Str? && x.Str?)
  }

  predicate Contains(container: Operand, x: Value)
    requires CanContain(container, x)
  {
    match container
    case Many(vs) => x in vs
    case One(v) => IsSubstring(x.s, v.s)
  }

  /** The operators filter_data knows; every other string is Unknown. */
  datatype Operator = Eq | Ne | Gt | Lt | Ge | Le | In | NotIn | Unknown

  predicate KnownOperator(op: string) {
    op in {"==", "!=", ">", "<", ">=", "<=", "in", "not in"}
  }

  /** Which branch of the `elif` chain an operator string selects. */
  function ParseOperator(op: string): (o: Operator)
    ensures o == Unknown <==> !KnownOperator(op)
  {
    if op == "==" then Eq
    else if op == "!=" then Ne
    else if op == ">" then Gt
    else if op == "<" then Lt
    else if op == ">=" then Ge
    else if op == "<=" then Le
    else if op == "in" then In
    else if op == "not in" then NotIn
    else Unknown
  }

  /** The test filter_data applies to the field value `x` of one record.
      An operator it does not know matches nothing; a comparison Python
      would reject with a TypeError (a list against `<`, an int `in` a
      string) is taken as no match. */
  predicate Matches(x: Value, operand: Operand, op: Operator) {
    match op
    case Eq => operand == One(x)
    case Ne => operand != One(x)
    case Gt => operand.One? && Less(operand.v, x)
    case Lt => operand.One? && Less(x, operand.v)
    case Ge => operand.One? && LessEq(operand.v, x)
    case Le => operand.One? && LessEq(x, operand.v)
    case In => CanContain(operand, x) && Contains(operand, x)
    case NotIn => CanContain(operand, x) && !Contains(operand, x)
    case Unknown => false
  }

  predicate Keeps(item: Item, field: string, operand: Operand, op: Operator) {
    field in item && Matches(item[field], operand, op)
  }

  /** The specification of filter_data: the records that pass the test, in
      input order. */
  function Filtered(data: seq<Item>, field: string, operand: Operand, op: Operator): seq<Item> {
    if |data| == 0 then []
    else
      var last := data[|data| - 1];
      Filtered(data[..|data| - 1], field, operand, op) + if Keeps(last, field, operand, op) then [last] else []
  }

  method FilterData(data: seq<Item>, field: string, operand: Operand, op: string) returns (filtered: seq<Item>)
    ensures filtered == Filtered(data, field, operand, ParseOperator(op))
  {
    // the `elif` chain compares `operator` with the same literals for every record
    var o := ParseOperator(op);
    filtered := [];
    var i := 0;
    while i < |data|
      invariant 0 <= i <= |data|
      invariant filtered == Filtered(data[..i], field, operand, o)
    {
      assert data[..i + 1][..i] == data[..i];
      var item := data[i];
      if field in item {
        var x := item[field];
        var keep;
        match o {
          case Eq => keep := One(x) == operand;
          case Ne => keep := One(x) != operand;
          case Gt => keep := operand.One? && Less(operand.v, x);
          case Lt => keep := operand.One? && Less(x, operand.v);
          case Ge => keep := operand.One? && LessEq(operand.v, x);
          case Le => keep := operand.One? && LessEq(x, operand.v);
          case In => keep := CanContain(operand, x) && Contains(operand, x);
          case NotIn => keep := CanContain(operand, x) && !Contains(operand, x);
          case Unknown => keep := false;
        }
        if keep {
          filtered := filtered + [item];
        }
      }
      i := i + 1;
    }
    assert data[..|data|] == data;
  }

  /** Every record filter_data returns has the field and passes the test;
      the result is no longer than the input. */
  lemma {:induction false} FilteredKeeps(data: seq<Item>, field: string, operand: Operand, op: Operator)
    ensures |Filtered(data, field, operand, op)| <= |data|
    ensures forall i :: 0 <= i < |Filtered(data, field, operand, op)| ==> Keeps(Filtered(data, field, operand, op)[i], field, operand, op)
  {
    if |data| > 0 {
      var prev := Filtered(data[..|data| - 1], field, operand, op);
      FilteredKeeps(data[..|data| - 1], field, operand, op);
      var f := Filtered(data, field, operand, op);
      assert forall i :: 0 <= i < |prev| ==> f[i] == prev[i];
    }
  }

  /** filter_data returns input records, in input order. */
  lemma {:induction false} FilteredIsSubsequence(data: seq<Item>, field: string, operand: Operand, op: Operator)
    ensures IsSubsequence(Filtered(data, field, operand, op), data)
  {
    if |data| > 0 {
      var init, last := data[..|data| - 1], data[|data| - 1];
      FilteredIsSubsequence(init, field, operand, op);
      var f := Filtered(data, field, operand, op);
      var prev := Filtered(init, field, operand, op);
      if Keeps(last, field, operand, op) {
        assert f == prev + [last];
        assert f[|f| - 1] == data[|data| - 1] && f[..|f| - 1] == prev;
      } else {
        assert f == prev;
        assert data == init + [last];
        SubsequenceExtend(prev, init, last);
      }
    }
  }

  /** filter_data drops no record that passes the test: every such record
      is in the result, and the result has one record per such input
      record. */
  lemma {:induction false} FilteredComplete(data: seq<Item>, field: string, operand: Operand, op: Operator)
    ensures |Filtered(data, field, operand, op)| == |Positions(data, (item: Item) => Keeps(item, field, operand, op))|
    ensures forall i :: 0 <= i < |data| && Keeps(data[i], field, operand, op) ==> data[i] in Filtered(data, field, operand, op)
  {
    if |data| > 0 {
      var n := |data| - 1;
      var init, last := data[..n], data[n];
      FilteredComplete(init, field, operand, op);
      assert data == init + [last];
      PositionsSnoc(init, last, (item: Item) => Keeps(item, field, operand, op));
      var prev := Filtered(init, field, operand, op);
      if Keeps(last, field, operand, op) {
        assert Filtered(data, field, operand, op) == prev + [last];
      } else {
        assert Filtered(data, field, operand, op) == prev;
      }
    }
  }

  /** An operator filter_data does not know selects nothing. */
  lemma {:induction false} UnknownOperatorSelectsNothing(data: seq<Item>, field: string, operand: Operand, op: string)
    requires !KnownOperator(op)
    ensures Filtered(data, field, operand, ParseOperator(op)) == []
  {
    if |data| > 0 {
      UnknownOperatorSelectsNothing(data[..|data| - 1], field, operand, op);
    }
  }

  /** The records that have the field at all. */
  function WithField(data: seq<Item>, field: string): seq<Item> {
    if |data| == 0 then []
    else
      var last := data[|data| - 1];
      WithField(data[..|data| - 1], field) + if field in last then [last] else []
  }

  /** For one field and value, "==" and "!=" split the records that have
      the field between them. */
  lemma EqualNotEqualPartition(data: seq<Item>, field: string, operand: Operand)
    ensures multiset(Filtered(data, field, operand, ParseOperator("=="))) + multiset(Filtered(data, field, operand, ParseOperator("!=")))
         == multiset(WithField(data, field))
  {
    assert ParseOperator("==") == Eq && ParseOperator("!=") == Ne;
    EqualNotEqualSplit(data, field, operand);
  }

  lemma {:induction false} EqualNotEqualSplit(data: seq<Item>, field: string, operand: Operand)
    ensures multiset(Filtered(data, field, operand, Eq)) + multiset(Filtered(data, field, operand, Ne))
         == multiset(WithField(data, field))
  {
    if |data| > 0 {
      var init, last := data[..|data| - 1], data[|data| - 1];
      EqualNotEqualSplit(init, field, operand);
      var eq, ne, with := Filtered(init, field, operand, Eq), Filtered(init, field, operand, Ne), WithField(init, field);
      if field !in last {
        assert Filtered(data, field, operand, Eq) == eq;
        assert Filtered(data, field, operand, Ne) == ne;
        assert WithField(data, field) == with;
      } else if operand == One(last[field]) {
        assert Filtered(data, field, operand, Eq) == eq + [last];
        assert Filtered(data, field, operand, Ne) == ne;
        assert WithField(data, field) == with + [last];
      } else {
        assert Filtered(data, field, operand, Eq) == eq;
        assert Filtered(data, field, operand, Ne) == ne + [last];
        assert WithField(data, field) == with + [last];
      }
    }
  }

  // -----------------------------------------------------------------------
  // sort_data
  // -----------------------------------------------------------------------

  /** `x.get(field, "")` */
  function SortKey(item: Item, field: string): Value {
    if field in item then item[field] else Str("")
  }

  /** `a` may come before `b` in the output of sort_data. */
  predicate Precedes(a: Item, b: Item, field: string, reverse: bool) {
    if reverse then LessEq(SortKey(b, field), SortKey(a, field))
    else LessEq(SortKey(a, field), SortKey(b, field))
  }

  predicate SortedBy(s: seq<Item>, field: string, reverse: bool) {
    forall i, j :: 0 <= i < j < |s| ==> Precedes(s[i], s[j], field, reverse)
  }

  lemma PrecedesTotalPreorder(a: Item, b: Item, c: Item, field: string, reverse: bool)
    ensures Precedes(a, b, field, reverse) && Precedes(b, c, field, reverse) ==> Precedes(a, c, field, reverse)
    ensures Precedes(a, b, field, reverse) || Precedes(b, a, field, reverse)
  {
    LessEqTotalOrder(SortKey(a, field), SortKey(b, field), SortKey(c, field));
    LessEqTotalOrder(SortKey(c, field), SortKey(b, field), SortKey(a, field));
  }

  /** Insert `x` before the first element it may precede: stable, since
      `x` came before every element of `s` in the input. */
  function Insert(x: Item, s: seq<Item>, field: string, reverse: bool): seq<Item> {
    if |s| == 0 || Precedes(x, s[0], field, reverse) then [x] + s
    else [s[0]] + Insert(x, s[1..], field, reverse)
  }

  /** Python's `sorted` (a stable sort) by SortKey. */
  function InsertionSort(s: seq<Item>, field: string, reverse: bool): seq<Item> {
    if |s| == 0 then [] else Insert(s[0], InsertionSort(s[1..], field, reverse), field, reverse)
  }

  lemma {:induction false} InsertPermutes(x: Item, s: seq<Item>, field: string, reverse: bool)
    ensures multiset(Insert(x, s, field, reverse)) == multiset(s) + multiset{x}
  {
    if |s| > 0 && !Precedes(x, s[0], field, reverse) {
      InsertPermutes(x, s[1..], field, reverse);
      assert s == [s[0]] + s[1..];
    }
  }

  lemma SortedCons(h: Item, t: seq<Item>, field: string, reverse: bool)
    requires SortedBy(t, field, reverse)
    requires forall k :: 0 <= k < |t| ==> Precedes(h, t[k], field, reverse)
    ensures SortedBy([h] + t, field, reverse)
  {
    var r := [h] + t;
    forall i, j | 0 <= i < j < |r| ensures Precedes(r[i], r[j], field, reverse) {
      assert r[j] == t[j - 1];
      if i > 0 {
        assert r[i] == t[i - 1];
      }
    }
  }

  lemma {:induction false} InsertSorted(x: Item, s: seq<Item>, field: string, reverse: bool)
    requires SortedBy(s, field, reverse)
    ensures SortedBy(Insert(x, s, field, reverse), field, reverse)
  {
    if |s| == 0 {
    } else if Precedes(x, s[0], field, reverse) {
      forall k | 0 <= k < |s| ensures Precedes(x, s[k], field, reverse) {
        PrecedesTotalPreorder(x, s[0], s[k], field, reverse);
      }
      SortedCons(x, s, field, reverse);
    } else {
      var tail := s[1..];
      var t := Insert(x, tail, field, reverse);
      InsertSorted(x, tail, field, reverse);
      InsertPermutes(x, tail, field, reverse);
      PrecedesTotalPreorder(x, s[0], x, field, reverse);
      forall k | 0 <= k < |t| ensures Precedes(s[0], t[k], field, reverse) {
        assert t[k] in multiset(t);
        if t[k] != x {
          assert t[k] in multiset(tail);
          var m :| 0 <= m < |tail| && tail[m] == t[k];
          assert s[m + 1] == t[k];
        }
      }
      SortedCons(s[0], t, field, reverse);
    }
  }

  lemma {:induction false} InsertionSortCorrect(s: seq<Item>, field: string, reverse: bool)
    ensures multiset(InsertionSort(s, field, reverse)) == multiset(s)
    ensures SortedBy(InsertionSort(s, field, reverse), field, reverse)
  {
    if |s| > 0 {
      InsertionSortCorrect(s[1..], field, reverse);
      InsertSorted(s[0], InsertionSort(s[1..], field, reverse), field, reverse);
      InsertPermutes(s[0], InsertionSort(s[1..], field, reverse), field, reverse);
      assert s == [s[0]] + s[1..];
    }
  }

  /** sort_data: the input itself when it is empty or its first record lacks
      the field; otherwise a permutation of the input ordered by the field,
      descending when `reverse` is set. */
  function SortData(data: seq<Item>, field: string, reverse: bool): (r: seq<Item>)
    ensures |data| == 0 || field !in data[0] ==> r == data
    ensures multiset(r) == multiset(data)
    ensures |data| > 0 && field in data[0] ==> SortedBy(r, field, reverse)
  {
    if |data| == 0 || field !in data[0] then data
    else
      InsertionSortCorrect(data, field, reverse);
      InsertionSort(data, field, reverse)
  }

  // -----------------------------------------------------------------------
  // get_unique_values and count_by_field
  // -----------------------------------------------------------------------

  /** The non-None values of the field over all records. */
  function PresentValues(data: seq<Item>, field: string): set<Value> {
    set i | 0 <= i < |data| && HasValue(data[i], field) :: data[i][field]
  }

  lemma PresentValuesStep(data: seq<Item>, field: string)
    requires |data| > 0
    ensures PresentValues(data, field)
         == PresentValues(data[..|data| - 1], field)
            + if HasValue(data[|data| - 1], field) then {data[|data| - 1][field]} else {}
  {
    var init := data[..|data| - 1];
    forall v | v in PresentValues(data, field)
      ensures v in PresentValues(init, field) + if HasValue(data[|data| - 1], field) then {data[|data| - 1][field]} else {}
    {
      var i :| 0 <= i < |data| && HasValue(data[i], field) && data[i][field] == v;
      if i < |data| - 1 {
        assert init[i] == data[i];
      }
    }
    forall v | v in PresentValues(init, field) ensures v in PresentValues(data, field) {
      var i :| 0 <= i < |init| && HasValue(init[i], field) && init[i][field] == v;
      assert data[i] == init[i];
    }
  }

  /** The set get_unique_values turns into a list: empty when the data is
      empty or its first record lacks the field. */
  function UniqueValues(data: seq<Item>, field: string): set<Value> {
    if |data| == 0 || field !in data[0] then {} else PresentValues(data, field)
  }

  method GetUniqueValues(data: seq<Item>, field: string) returns (values: seq<Value>)
    ensures forall i, j :: 0 <= i < j < |values| ==> values[i] != values[j]
    ensures forall v :: v in values <==> v in UniqueValues(data, field)
  {
    if |data| == 0 || field !in data[0] {
      return [];
    }
    var unique: set<Value> := {};
    var i := 0;
    while i < |data|
      invariant 0 <= i <= |data|
      invariant unique == PresentValues(data[..i], field)
    {
      PresentValuesStep(data[..i + 1], field);
      assert data[..i + 1][..i] == data[..i];
      if field in data[i] && data[i][field] != Null {
        unique := unique + {data[i][field]};
      }
      i := i + 1;
    }
    assert data[..|data|] == data;
    // list(unique_values): some enumeration of the set
    values := [];
    var rest := unique;
    while rest != {}
      invariant rest <= unique
      invariant forall v :: v in unique <==> v in rest || v in values
      invariant forall v :: v in values ==> v !in rest
      invariant forall i, j :: 0 <= i < j < |values| ==> values[i] != values[j]
      decreases rest
    {
      var v :| v in rest;
      values := values + [v];
      rest := rest - {v};
    }
  }

  /** How often the non-None value `v` occurs in the field. */
  function Occurrences(data: seq<Item>, field: string, v: Value): nat {
    if |data| == 0 then 0
    else
      var last := data[|data| - 1];
      Occurrences(data[..|data| - 1], field, v) + if HasValue(last, field) && last[field] == v then 1 else 0
  }

  /** How many records have a non-None value in the field. */
  function PresentCount(data: seq<Item>, field: string): nat {
    if |data| == 0 then 0
    else PresentCount(data[..|data| - 1], field) + if HasValue(data[|data| - 1], field) then 1 else 0
  }

  /** The dict count_by_field builds, record by record. */
  function Tally(data: seq<Item>, field: string): map<Value, nat> {
    if |data| == 0 then map[]
    else
      var counts := Tally(data[..|data| - 1], field);
      var last := data[|data| - 1];
      if HasValue(last, field) then
        counts[last[field] := (if last[field] in counts then counts[last[field]] else 0) + 1]
      else counts
  }

  /** The specification of count_by_field, with its early return. */
  function Counts(data: seq<Item>, field: string): map<Value, nat> {
    if |data| == 0 || field !in data[0] then map[] else Tally(data, field)
  }

  method CountByField(data: seq<Item>, field: string) returns (counts: map<Value, nat>)
    ensures counts == Counts(data, field)
  {
    if |data| == 0 || field !in data[0] {
      return map[];
    }
    counts := map[];
    var i := 0;
    while i < |data|
      invariant 0 <= i <= |data|
      invariant counts == Tally(data[..i], field)
    {
      assert data[..i + 1][..i] == data[..i];
      if field in data[i] && data[i][field] != Null {
        var value := data[i][field];
        counts := counts[value := (if value in counts then counts[value] else 0) + 1];
      }
      i := i + 1;
    }
    assert data[..|data|] == data;
  }

  /** Every key of the tally is a value that occurs, counted exactly. */
  lemma {:induction false} TallyCountsOccurrences(data: seq<Item>, field: string)
    ensures Tally(data, field).Keys == PresentValues(data, field)
    ensures forall v :: v in Tally(data, field) ==> Tally(data, field)[v] == Occurrences(data, field, v) >= 1
  {
    if |data| > 0 {
      TallyCountsOccurrences(data[..|data| - 1], field);
      PresentValuesStep(data, field);
      var last := data[|data| - 1];
      if HasValue(last, field) && last[field] !in PresentValues(data[..|data| - 1], field) {
        OccurrencesAbsent(data[..|data| - 1], field, last[field]);
      }
    }
  }

  lemma {:induction false} OccurrencesAbsent(data: seq<Item>, field: string, v: Value)
    requires v !in PresentValues(data, field)
    ensures Occurrences(data, field, v) == 0
  {
    if |data| > 0 {
      PresentValuesStep(data, field);
      OccurrencesAbsent(data[..|data| - 1], field, v);
    }
  }

  /** The sum of the values of a count dict over the given keys. */
  ghost function SumOver(m: map<Value, nat>, keys: set<Value>): nat
    requires keys <= m.Keys
  {
    if keys == {} then 0
    else
      var v :| v in keys;
      m[v] + SumOver(m, keys - {v})
  }

  ghost function SumOf(m: map<Value, nat>): nat {
    SumOver(m, m.Keys)
  }

  lemma {:induction false} SumOverRemove(m: map<Value, nat>, keys: set<Value>, v: Value)
    requires keys <= m.Keys && v in keys
    ensures SumOver(m, keys) == m[v] + SumOver(m, keys - {v})
  {
    var w :| w in keys && SumOver(m, keys) == m[w] + SumOver(m, keys - {w});
    if w != v {
      SumOverRemove(m, keys - {w}, v);
      SumOverRemove(m, keys - {v}, w);
      assert keys - {w} - {v} == keys - {v} - {w};
    }
  }

  lemma {:induction false} SumOverAgree(m1: map<Value, nat>, m2: map<Value, nat>, keys: set<Value>)
    requires keys <= m1.Keys && keys <= m2.Keys
    requires forall k :: k in keys ==> m1[k] == m2[k]
    ensures SumOver(m1, keys) == SumOver(m2, keys)
  {
    if keys != {} {
      var k :| k in keys;
      SumOverRemove(m1, keys, k);
      SumOverRemove(m2, keys, k);
      SumOverAgree(m1, m2, keys - {k});
    }
  }

  /** The counts of count_by_field add up to the number of records whose
      field is present and not None. */
  lemma {:induction false} TallySum(data: seq<Item>, field: string)
    ensures SumOf(Tally(data, field)) == PresentCount(data, field)
  {
    if |data| > 0 {
      var init := data[..|data| - 1];
      var last := data[|data| - 1];
      TallySum(init, field);
      var m := Tally(init, field);
      if HasValue(last, field) {
        var v := last[field];
        var m' := Tally(data, field);
        SumOverRemove(m', m'.Keys, v);
        SumOverAgree(m', m, m.Keys - {v});
        assert m'.Keys - {v} == m.Keys - {v};
        if v in m {
          SumOverRemove(m, m.Keys, v);
        } else {
          assert m.Keys - {v} == m.Keys;
        }
      }
    }
  }

  /** count_by_field: every count is at least 1, the counts add up to the
      number of records whose field is present and not None, and the keys
      are exactly the values get_unique_values returns. */
  lemma CountsMatchUniqueValues(data: seq<Item>, field: string)
    ensures Counts(data, field).Keys == UniqueValues(data, field)
    ensures forall v :: v in Counts(data, field) ==> Counts(data, field)[v] == Occurrences(data, field, v) >= 1
    ensures |data| > 0 && field in data[0] ==> SumOf(Counts(data, field)) == PresentCount(data, field)
  {
    TallyCountsOccurrences(data, field);
    TallySum(data, field);
  }

  // -----------------------------------------------------------------------
  // merge_data
  // -----------------------------------------------------------------------

  /** Record `j` is the last one of `s` with its value of `key`. */
  predicate LastWithKey(s: seq<Item>, key: string, j: int) {
    0 <= j < |s| && key in s[j] && forall j' :: j < j' < |s| && key in s[j'] ==> s[j'][key] != s[j][key]
  }

  /** The lookup dict of merge_data: key value to record, built from the
      records of `s` that have the key. */
  function Index(s: seq<Item>, key: string): (r: map<Value, Item>)
    ensures forall j :: 0 <= j < |s| && key in s[j] ==> s[j][key] in r
    ensures forall v :: v in r ==> key in r[v] && r[v][key] == v && r[v] in s
  {
    if |s| == 0 then map[]
    else
      var init, last := s[..|s| - 1], s[|s| - 1];
      var m := Index(init, key);
      assert forall x :: x in init ==> x in s;
      if key in last then m[last[key] := last] else m
  }

  /** Of several records with the same key value the last one wins. */
  lemma {:induction false} IndexLastWins(s: seq<Item>, key: string, j: int)
    requires LastWithKey(s, key, j)
    ensures Index(s, key)[s[j][key]] == s[j]
  {
    if j < |s| - 1 {
      var init := s[..|s| - 1];
      assert LastWithKey(init, key, j);
      IndexLastWins(init, key, j);
    }
  }

  /** `{**item1, **match}` for the record of data2 with the same key value,
      if there is one. */
  function MergeItem(item: Item, index: map<Value, Item>, key: string): (r: Item)
    ensures !(key in item && item[key] in index) ==> r == item
    ensures key in item && item[key] in index ==>
      && r.Keys == item.Keys + index[item[key]].Keys
      && (forall f :: f in index[item[key]] ==> r[f] == index[item[key]][f])
      && (forall f :: f in item && f !in index[item[key]] ==> r[f] == item[f])
  {
    if key in item && item[key] in index then item + index[item[key]] else item
  }

  method MergeData(data1: seq<Item>, data2: seq<Item>, key: string) returns (merged: seq<Item>)
    ensures |data1| == 0 ==> merged == data2
    ensures |data1| > 0 && |data2| == 0 ==> merged == data1
    ensures |data1| > 0 && |data2| > 0 ==>
      && |merged| == |data1|
      && (forall i :: 0 <= i < |data1| ==> merged[i] == MergeItem(data1[i], Index(data2, key), key))
      && (forall i :: 0 <= i < |data1| && key in data1[i] ==> key in merged[i] && merged[i][key] == data1[i][key])
  {
    if |data1| == 0 || |data2| == 0 {
      return if |data1| > 0 then data1 else data2;
    }
    var index := Index(data2, key);
    merged := [];
    var i := 0;
    while i < |data1|
      invariant 0 <= i <= |data1|
      invariant |merged| == i
      invariant forall k :: 0 <= k < i ==> merged[k] == MergeItem(data1[k], index, key)
    {
      // {**item1, **data2_dict[item1[key_field]]} when the key value has a match, item1 otherwise
      merged := merged + [MergeItem(data1[i], index, key)];
      i := i + 1;
    }
  }

  // -----------------------------------------------------------------------
  // split_data
  // -----------------------------------------------------------------------

  /** Python's `int()` of a quotient: truncation toward zero. */
  function TruncDiv(a: int, b: int): int
    requires b > 0
  {
    if a >= 0 then a / b else -((-a) / b)
  }

  /** Python's slice bound `k` on a list of length `n`: a negative bound
      counts from the end, and the result is clamped to [0, n]. */
  function SliceBound(k: int, n: nat): (b: nat)
    ensures b <= n
    ensures 0 <= k <= n ==> b == k
  {
    if k < 0 then (if n + k < 0 then 0 else n + k)
    else if k > n then n
    else k
  }

  lemma {:induction false} MulMonotone(n: nat, a: int, b: int)
    requires a <= b
    ensures n * a <= n * b
  {
    if n > 0 {
      MulMonotone(n - 1, a, b);
      assert n * a == (n - 1) * a + a;
      assert n * b == (n - 1) * b + b;
    }
  }

  lemma FloorAtMost(x: int, d: int, n: int)
    requires d > 0 && x <= n * d
    ensures x / d <= n
  {
    var q := x / d;
    assert q * d <= x;
    if q > n {
      MulMonotone(d, n + 1, q);
    }
  }

  lemma FloorAtLeast(x: int, d: int, n: int)
    requires d > 0 && n * d <= x
    ensures n <= x / d
  {
    var q := x / d;
    assert x < q * d + d;
    if q < n {
      MulMonotone(d, q + 1, n);
    }
  }

  /** floor(n * num / den) lies between 0 and n for a ratio in [0, 1], and
      is at least n for a ratio of 1 or more. */
  lemma ScaledBounds(n: nat, num: int, den: int)
    requires den > 0
    ensures 0 <= num <= den ==> 0 <= n * num / den <= n
    ensures num >= den ==> n * num >= 0 && n * num / den >= n
  {
    if 0 <= num <= den {
      MulMonotone(n, 0, num);
      MulMonotone(n, num, den);
      FloorAtMost(n * num, den, n);
    }
    if num >= den {
      MulMonotone(n, 0, num);
      MulMonotone(n, den, num);
      FloorAtLeast(n * num, den, n);
    }
  }

  /** split_data with the ratio `ratioNum / ratioDen`: train + test is the
      input, and for a ratio in [0, 1] the train part holds
      floor(len * ratio) records. */
  function SplitData(data: seq<Item>, ratioNum: int, ratioDen: int): (r: (seq<Item>, seq<Item>))
    requires ratioDen > 0
    ensures r.0 + r.1 == data
    ensures 0 <= ratioNum <= ratioDen ==> |r.0| == |data| * ratioNum / ratioDen
    ensures ratioNum >= ratioDen ==> r == (data, [])
  {
    if |data| == 0 then ([], [])
    else
      var k := SliceBound(TruncDiv(|data| * ratioNum, ratioDen), |data|);
      ScaledBounds(|data|, ratioNum, ratioDen);
      assert data[..|data|] == data && data[|data|..] == [];
      (data[..k], data[k..])
  }
}
