/** How Python orders strings. */
module TextOrder {

  /** Python compares strings by code point, character by character. */
  predicate AtMost(a: string, b: string) {
    a == "" || (b != "" && (a[0] < b[0] || (a[0] == b[0] && AtMost(a[1..], b[1..]))))
  }

  lemma {:induction false} AtMostTotal(a: string, b: string)
    ensures AtMost(a, b) || AtMost(b, a)
    ensures AtMost(a, b) && AtMost(b, a) ==> a == b
  {
    if a != "" && b != "" && a[0] == b[0] {
      AtMostTotal(a[1..], b[1..]);
      assert a == [a[0]] + a[1..] && b == [b[0]] + b[1..];
    }
  }

  lemma {:induction false} AtMostTransitive(a: string, b: string, c: string)
    requires AtMost(a, b) && AtMost(b, c)
    ensures AtMost(a, c)
  {
    if a != "" && a[0] == b[0] == c[0] { AtMostTransitive(a[1..], b[1..], c[1..]); }
  }

  /** The first character at which the texts differ is smaller in `a`. */
  ghost predicate DiffersBelow(a: string, b: string, k: nat) {
    k < |a| && k < |b| && a[..k] == b[..k] && a[k] < b[k]
  }

  lemma DiffersInTail(a: string, b: string, k: nat)
    requires a != "" && b != "" && a[0] == b[0] && k > 0
    ensures DiffersBelow(a, b, k) <==> DiffersBelow(a[1..], b[1..], k - 1)
  {
    if k < |a| && k < |b| {
      assert a[..k] == [a[0]] + a[1..][..k - 1] && b[..k] == [b[0]] + b[1..][..k - 1];
      assert a[..k][1..] == a[1..][..k - 1] && b[..k][1..] == b[1..][..k - 1];
    }
  }

  lemma {:induction false} AtMostGives(a: string, b: string) returns (k: nat)
    requires AtMost(a, b)
    ensures a <= b || DiffersBelow(a, b, k)
  {
    k := 0;
    if a != "" {
      if a[0] == b[0] {
        k := AtMostGives(a[1..], b[1..]);
        k := k + 1;
        DiffersInTail(a, b, k);
        assert a == [a[0]] + a[1..] && b == [b[0]] + b[1..];
      }
    }
  }

  lemma {:induction false} PrefixIsAtMost(a: string, b: string)
    requires a <= b
    ensures AtMost(a, b)
  {
    if a != "" { PrefixIsAtMost(a[1..], b[1..]); }
  }

  lemma {:induction false} BelowIsAtMost(a: string, b: string, k: nat)
    requires DiffersBelow(a, b, k)
    ensures AtMost(a, b)
  {
    if k > 0 {
      assert a[..k][0] == a[0] && b[..k][0] == b[0];
      DiffersInTail(a, b, k);
      BelowIsAtMost(a[1..], b[1..], k - 1);
    }
  }

  /** `a` is at most `b` exactly when it is a prefix of `b`, or smaller at the first character where they differ. */
  lemma AtMostMeaning(a: string, b: string)
    ensures AtMost(a, b) <==> a <= b || exists k: nat :: DiffersBelow(a, b, k)
  {
    hide AtMost, DiffersBelow;
    if AtMost(a, b) { var k := AtMostGives(a, b); }
    if a <= b { PrefixIsAtMost(a, b); }
    if k: nat :| DiffersBelow(a, b, k) { BelowIsAtMost(a, b, k); }
  }
}
