/** Angle-bracket depth in catalog type strings such as `struct<a:map<string,int>>`.
    A nested type ends at the `>` that brings the depth, counted from its
    opening `<`, back to zero. */
module Brackets {
  import opened Outcomes

  function Step(c: char): int {
    if c == '<' then 1 else if c == '>' then -1 else 0
  }

  /** Opening minus closing brackets in `s`. */
  function Net(s: string): int {
    if s == [] then 0 else Step(s[0]) + Net(s[1..])
  }

  /** Starting at depth `d`, every non-empty prefix of `s` leaves the depth above zero. */
  predicate Above(s: string, d: int) {
    s == [] || (d + Step(s[0]) > 0 && Above(s[1..], d + Step(s[0])))
  }

  /** Every `<` in `s` is closed inside `s` and no `>` closes anything outside it. */
  predicate Balanced(s: string) {
    Net(s) == 0 && Above(s, 1)
  }

  predicate NoBrackets(s: string) {
    forall i :: 0 <= i < |s| ==> s[i] != '<' && s[i] != '>'
  }

  /** Starting at depth `d > 0`, the length of the shortest prefix of `s` that
      brings the depth to zero, or `None` if the depth never gets there. */
  function CloseIndex(s: string, d: int): (r: Option<nat>)
    requires d > 0
    ensures r.Some? ==> 0 < r.value <= |s| && s[r.value - 1] == '>'
  {
    if s == [] then None
    else
      var e := d + Step(s[0]);
      if e == 0 then Some(1) else Shift(CloseIndex(s[1..], e), 1)
  }

  /** What CloseIndex finds: the first point where the depth reaches zero. */
  lemma {:induction false} CloseIndexMeaning(s: string, d: int)
    requires d > 0
    ensures CloseIndex(s, d).Some? ==>
      var k := CloseIndex(s, d).value;
      Above(s[..k - 1], d) && d + Net(s[..k]) == 0
    ensures CloseIndex(s, d).None? ==> Above(s, d)
  {
    if s != [] {
      var e := d + Step(s[0]);
      if e == 0 {
        assert s[..1] == [s[0]] && s[..1][1..] == [];
      } else {
        CloseIndexMeaning(s[1..], e);
        if CloseIndex(s[1..], e).Some? {
          var k := CloseIndex(s[1..], e).value;
          assert s[..k + 1][1..] == s[1..][..k];
          assert s[..k] == [s[0]] + s[1..][..k - 1];
        }
      }
    }
  }

  lemma {:induction false} NetAppend(a: string, b: string)
    ensures Net(a + b) == Net(a) + Net(b)
  {
    if a == [] {
      assert a + b == b;
    } else {
      assert (a + b)[0] == a[0];
      assert (a + b)[1..] == a[1..] + b;
      NetAppend(a[1..], b);
    }
  }

  lemma {:induction false} AboveAppend(a: string, b: string, d: int)
    ensures Above(a + b, d) <==> Above(a, d) && Above(b, d + Net(a))
  {
    if a != [] {
      assert (a + b)[1..] == a[1..] + b;
      AboveAppend(a[1..], b, d + Step(a[0]));
    } else {
      assert a + b == b;
    }
  }

  lemma {:induction false} AboveRaise(s: string, d: int, e: int)
    requires Above(s, d) && d <= e
    ensures Above(s, e)
  {
    if s != [] {
      AboveRaise(s[1..], d + Step(s[0]), e + Step(s[0]));
    }
  }

  lemma {:induction false} NoBracketsBalanced(s: string, d: int)
    requires NoBrackets(s) && d > 0
    ensures Net(s) == 0 && Above(s, d)
  {
    if s != [] {
      NoBracketsBalanced(s[1..], d);
    }
  }

  lemma BalancedAppend(a: string, b: string)
    requires Balanced(a) && Balanced(b)
    ensures Balanced(a + b)
  {
    NetAppend(a, b);
    AboveAppend(a, b, 1);
  }

  /** `head<inner>` is balanced when `inner` is and `head` has no brackets. */
  lemma BalancedWrap(head: string, inner: string)
    requires NoBrackets(head) && Balanced(inner)
    ensures Balanced(head + "<" + inner + ">")
  {
    NoBracketsBalanced(head, 1);
    NetAppend(head, "<");
    NetAppend(head + "<", inner);
    NetAppend(head + "<" + inner, ">");
    AboveRaise(inner, 1, 2);
    AboveAppend(head, "<", 1);
    AboveAppend(head + "<", inner, 1);
    AboveAppend(head + "<" + inner, ">", 1);
  }

  /** Scanning past a prefix that stays above zero adds its length to the answer. */
  lemma {:induction false} CloseIndexAfter(x: string, z: string, d: int)
    requires d > 0 && Above(x, d)
    ensures d + Net(x) > 0
    ensures CloseIndex(x + z, d) == Shift(CloseIndex(z, d + Net(x)), |x|)
  {
    if x == [] {
      assert x + z == z;
    } else {
      var e := d + Step(x[0]);
      var t := x[1..];
      assert e > 0 && Above(t, e);
      assert Net(x) == Step(x[0]) + Net(t);
      CloseIndexAfter(t, z, e);
      var r := CloseIndex(z, e + Net(t));
      CloseIndexStep(x, z, d);
      assert Shift(Shift(r, |t|), 1) == Shift(r, |t| + 1);
    }
  }

  lemma CloseIndexStep(x: string, z: string, d: int)
    requires d > 0 && x != [] && d + Step(x[0]) > 0
    ensures CloseIndex(x + z, d) == Shift(CloseIndex(x[1..] + z, d + Step(x[0])), 1)
  {
    assert (x + z)[0] == x[0] && (x + z)[1..] == x[1..] + z;
  }


  function Shift(r: Option<nat>, n: nat): Option<nat> {
    match r
    case None => None
    case Some(k) => Some(k + n)
  }

  /** A balanced body followed by `>` is closed exactly by that `>`. */
  lemma CloseIndexBalanced(x: string, z: string)
    requires Balanced(x)
    ensures CloseIndex(x + ">" + z, 1) == Some(|x| + 1)
  {
    assert x + ">" + z == x + (">" + z);
    CloseIndexAfter(x, ">" + z, 1);
  }

  /** Conversely, a depth that never reaches zero leaves no closing point. */
  lemma {:induction false} CloseIndexNever(s: string, d: int)
    requires d > 0 && Above(s, d)
    ensures CloseIndex(s, d) == None
  {
    if s != [] {
      CloseIndexNever(s[1..], d + Step(s[0]));
    }
  }
}
