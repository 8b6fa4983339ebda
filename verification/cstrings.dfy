/** NUL-terminated C strings as sequences of characters, and the order `strcmp` puts them in. */
module CStrings {

  /** A variable code, alias or chain name (the characters before the terminating NUL). */
  type Code = seq<char>

  /** The sign of `strcmp(a, b)`: the first differing character decides, and a
      proper prefix sorts first. */
  function Cmp(a: Code, b: Code): (r: int)
    ensures -1 <= r <= 1
  {
    CmpFrom(a, b, 0)
  }

  /** The comparison loop of `strcmp`, from position k on (both strings agree before k). */
  function CmpFrom(a: Code, b: Code, k: nat): (r: int)
    ensures -1 <= r <= 1
    decreases |a| - k
  {
    if |a| <= k then (if |b| <= k then 0 else -1)
    else if |b| <= k then 1
    else if a[k] < b[k] then -1
    else if b[k] < a[k] then 1
    else CmpFrom(a, b, k + 1)
  }

  /** `strcmp` returns 0 exactly on equal strings. */
  lemma CmpZero(a: Code, b: Code)
    ensures Cmp(a, b) == 0 <==> a == b
  {
    CmpFromZero(a, b, 0);
  }

  lemma {:induction false} CmpFromZero(a: Code, b: Code, k: nat)
    requires k <= |a| && k <= |b| && a[..k] == b[..k]
    ensures CmpFrom(a, b, k) == 0 <==> a == b
    decreases |a| - k
  {
    if k < |a| && k < |b| && a[k] == b[k] {
      assert a[..k + 1] == a[..k] + [a[k]] && b[..k + 1] == b[..k] + [b[k]];
      CmpFromZero(a, b, k + 1);
    } else if a == b {
      assert |a| == k && |b| == k;
    } else if k < |a| && k < |b| {
      assert a[k] != b[k];
    }
  }

  /** Swapping the arguments of `strcmp` flips the sign. */
  lemma CmpFlip(a: Code, b: Code)
    ensures Cmp(b, a) == -Cmp(a, b)
  {
    CmpFromFlip(a, b, 0);
  }

  lemma {:induction false} CmpFromFlip(a: Code, b: Code, k: nat)
    ensures CmpFrom(b, a, k) == -CmpFrom(a, b, k)
    decreases |a| - k
  {
    if k < |a| && k < |b| && a[k] == b[k] {
      CmpFromFlip(a, b, k + 1);
    }
  }

  /** The `strcmp` order is transitive. */
  lemma CmpTrans(a: Code, b: Code, c: Code)
    requires Cmp(a, b) <= 0 && Cmp(b, c) <= 0
    ensures Cmp(a, c) <= 0
  {
    CmpFromTrans(a, b, c, 0);
  }

  lemma {:induction false} CmpFromTrans(a: Code, b: Code, c: Code, k: nat)
    requires CmpFrom(a, b, k) <= 0 && CmpFrom(b, c, k) <= 0
    ensures CmpFrom(a, c, k) <= 0
    decreases |a| - k
  {
    if k < |a| && k < |b| && k < |c| && a[k] == b[k] && b[k] == c[k] {
      CmpFromTrans(a, b, c, k + 1);
    }
  }
}
