/** The field values of the records handled by the list utilities, and the
    order `<`, `>`, `<=`, `>=` and `sorted` use on them. Python orders two
    ints and two strings and raises TypeError on any other pair; the model
    assumes one total order instead: None < every int < every string,
    ints by value, strings lexicographically by character. */
module Values {

  datatype Value = Null | Int(i: int) | Str(s: string)

  /** Python's `<` on two strings: lexicographic by code point, a proper
      prefix before the longer string. */
  predicate StrLess(a: string, b: string) {
    if |a| == 0 then |b| > 0
    else if |b| == 0 then false
    else a[0] < b[0] || (a[0] == b[0] && StrLess(a[1..], b[1..]))
  }

  function Rank(v: Value): nat {
    match v
    case Null => 0
    case Int(_) => 1
    case Str(_) => 2
  }

  predicate Less(a: Value, b: Value) {
    if Rank(a) != Rank(b) then Rank(a) < Rank(b)
    else match a
      case Null => false
      case Int(x) => x < b.i
      case Str(x) => StrLess(x, b.s)
  }

  predicate LessEq(a: Value, b: Value) {
    a == b || Less(a, b)
  }

  lemma {:induction false} StrLessIrreflexive(a: string)
    ensures !StrLess(a, a)
  {
    if |a| > 0 {
      StrLessIrreflexive(a[1..]);
    }
  }

  lemma {:induction false} StrLessTransitive(a: string, b: string, c: string)
    requires StrLess(a, b) && StrLess(b, c)
    ensures StrLess(a, c)
  {
    if |a| > 0 && a[0] == b[0] && b[0] == c[0] {
      StrLessTransitive(a[1..], b[1..], c[1..]);
    }
  }

  lemma {:induction false} StrLessTrichotomy(a: string, b: string)
    ensures a == b || StrLess(a, b) || StrLess(b, a)
  {
    if |a| > 0 && |b| > 0 && a[0] == b[0] {
      StrLessTrichotomy(a[1..], b[1..]);
      if a[1..] == b[1..] {
        assert a == [a[0]] + a[1..] && b == [b[0]] + b[1..];
      }
    }
  }

  /** Less is a strict total order. */
  lemma LessStrictTotalOrder(a: Value, b: Value, c: Value)
    ensures !Less(a, a)
    ensures Less(a, b) && Less(b, c) ==> Less(a, c)
    ensures a == b || Less(a, b) || Less(b, a)
  {
    if a.Str? {
      StrLessIrreflexive(a.s);
      if b.Str? {
        StrLessTrichotomy(a.s, b.s);
        if c.Str? && Less(a, b) && Less(b, c) {
          StrLessTransitive(a.s, b.s, c.s);
        }
      }
    }
  }

  /** LessEq is a total preorder (in fact a total order): what a sort needs. */
  lemma LessEqTotalOrder(a: Value, b: Value, c: Value)
    ensures LessEq(a, a)
    ensures LessEq(a, b) && LessEq(b, c) ==> LessEq(a, c)
    ensures LessEq(a, b) || LessEq(b, a)
    ensures LessEq(a, b) && LessEq(b, a) ==> a == b
  {
    LessStrictTotalOrder(a, b, c);
    LessStrictTotalOrder(b, a, c);
    LessStrictTotalOrder(a, b, a);
  }
}
