/** str_cmp and strn_cmp: case-insensitive comparison, and the order it makes. */
module Collation {
  import opened CText

  /** The difference at the first place where the strings differ, the terminator counting as zero. */
  function StrCmp(a: CString, b: CString): int {
    if a == "" && b == "" then 0
    else if a == "" then -(Lower(b[0]) as int)
    else if b == "" then Lower(a[0]) as int
    else if Lower(a[0]) != Lower(b[0]) then Lower(a[0]) as int - Lower(b[0]) as int
    else StrCmp(a[1..], b[1..])
  }

  /** The same, over at most `n` characters. */
  function StrNCmp(a: CString, b: CString, n: nat): int {
    if n == 0 || (a == "" && b == "") then 0
    else if a == "" then -(Lower(b[0]) as int)
    else if b == "" then Lower(a[0]) as int
    else if Lower(a[0]) != Lower(b[0]) then Lower(a[0]) as int - Lower(b[0]) as int
    else StrNCmp(a[1..], b[1..], n - 1)
  }

  /** Where the strings first differ, letter case aside, or end together, the comparison gives the difference of the
      lower-case characters, and zero if that place is past the limit. */
  lemma {:induction false} ComparedAt(a: CString, b: CString, k: nat, n: nat)
    requires k <= |a| && k <= |b| && forall i :: 0 <= i < k ==> Lower(a[i]) == Lower(b[i])
    requires k == |a| == |b| || Lower(CharAt(a, k)) != Lower(CharAt(b, k))
    ensures var d := Lower(CharAt(a, k)) as int - Lower(CharAt(b, k)) as int;
      StrCmp(a, b) == d && StrNCmp(a, b, n) == if k < n then d else 0
  {
    if k > 0 && n > 0 {
      ComparedAt(a[1..], b[1..], k - 1, n - 1);
    } else if k > 0 {
      ComparedAt(a[1..], b[1..], k - 1, n);
    }
  }

  /** Strings compare equal exactly when they are the same letters, case aside. */
  lemma EqualIff(a: CString, b: CString)
    ensures StrCmp(a, b) == 0 <==> |a| == |b| && Begins(a, b)
  {
    var k := FirstDifference(a, b);
    ComparedAt(a, b, k, 0);
    if k < |a| { LowerNotNul(a[k]); }
    if k < |b| { LowerNotNul(b[k]); }
  }

  lemma FirstDifference(a: CString, b: CString) returns (k: nat)
    ensures k <= |a| && k <= |b| && forall i :: 0 <= i < k ==> Lower(a[i]) == Lower(b[i])
    ensures k == |a| == |b| || Lower(CharAt(a, k)) != Lower(CharAt(b, k))
  {
    k := 0;
    if a != "" { LowerNotNul(a[0]); }
    if b != "" { LowerNotNul(b[0]); }
    if a != "" && b != "" && Lower(a[0]) == Lower(b[0]) {
      var n := FirstDifference(a[1..], b[1..]);
      k := n + 1;
    }
  }

  lemma LowerNotNul(c: char)
    requires c != '\0'
    ensures Lower(c) as int > 0
  {
  }

  lemma {:induction false} StrCmpSwap(a: CString, b: CString)
    ensures StrCmp(b, a) == -StrCmp(a, b)
    decreases |a|
  {
    if a != "" && b != "" && Lower(a[0]) == Lower(b[0]) {
      StrCmpSwap(a[1..], b[1..]);
    }
  }

  lemma {:induction false} StrCmpTransitive(a: CString, b: CString, c: CString)
    requires StrCmp(a, b) <= 0 && StrCmp(b, c) <= 0
    ensures StrCmp(a, c) <= 0
    ensures StrCmp(a, b) < 0 || StrCmp(b, c) < 0 ==> StrCmp(a, c) < 0
    decreases |a|
  {
    if a != "" { LowerNotNul(a[0]); }
    if b != "" { LowerNotNul(b[0]); }
    if c != "" { LowerNotNul(c[0]); }
    if a != "" && b != "" && c != "" && Lower(a[0]) == Lower(b[0]) == Lower(c[0]) {
      StrCmpTransitive(a[1..], b[1..], c[1..]);
    }
  }

  /** `a` begins `b`, letter case aside. */
  predicate Begins(a: CString, b: CString) {
    |a| <= |b| && forall i :: 0 <= i < |a| ==> Lower(a[i]) == Lower(b[i])
  }

  lemma {:induction false} PrefixCompare(a: CString, b: CString)
    ensures StrNCmp(a, b, |a|) == 0 <==> Begins(a, b)
    decreases |a|
  {
    if a != "" { LowerNotNul(a[0]); }
    if a != "" && b != "" && Lower(a[0]) == Lower(b[0]) {
      PrefixCompare(a[1..], b[1..]);
      assert forall i :: 0 <= i < |a[1..]| ==> a[1..][i] == a[i + 1];
      assert forall i :: 0 <= i < |b[1..]| ==> b[1..][i] == b[i + 1];
      if Begins(a[1..], b[1..]) {
        forall i | 0 <= i < |a| ensures Lower(a[i]) == Lower(b[i]) {
          if i > 0 { assert Lower(a[1..][i - 1]) == Lower(b[1..][i - 1]); }
        }
      }
      if Begins(a, b) {
        forall i | 0 <= i < |a[1..]| ensures Lower(a[1..][i]) == Lower(b[1..][i]) {
          assert Lower(a[i + 1]) == Lower(b[i + 1]);
        }
      }
    }
  }

  /** Comparing a prefix goes down as the keyword goes up in the order. */
  lemma {:induction false} PrefixMonotone(a: CString, x: CString, y: CString, n: nat)
    requires StrCmp(x, y) <= 0
    ensures StrNCmp(a, y, n) > 0 ==> StrNCmp(a, x, n) > 0
    ensures StrNCmp(a, x, n) < 0 ==> StrNCmp(a, y, n) < 0
    decreases n
  {
    if a != "" { LowerNotNul(a[0]); }
    if x != "" { LowerNotNul(x[0]); }
    if y != "" { LowerNotNul(y[0]); }
    if n > 0 && a != "" && x != "" && y != "" && Lower(a[0]) == Lower(x[0]) == Lower(y[0]) {
      PrefixMonotone(a[1..], x[1..], y[1..], n - 1);
    }
  }
}
