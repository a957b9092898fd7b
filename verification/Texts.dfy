/** C strings and the flat memory image of a list of strings. */
module Texts {
  const NUL := '\0'

  /** What `strnlen` measures at `s[p]`: characters up to the first NUL, at most `n`. */
  function Strnlen(s: seq<char>, p: nat, n: nat): (k: nat)
    requires p <= |s|
    ensures k <= n && p + k <= |s|
    ensures forall i | p <= i < p + k :: s[i] != NUL
    ensures k < n && p + k < |s| ==> s[p + k] == NUL
    decreases n
  {
    if n == 0 || p == |s| || s[p] == NUL then 0 else 1 + Strnlen(s, p + 1, n - 1)
  }

  lemma {:induction false} StrnlenIs(s: seq<char>, p: nat, n: nat, k: nat)
    requires k <= n && p + k <= |s|
    requires forall i | p <= i < p + k :: s[i] != NUL
    requires k == n || p + k == |s| || s[p + k] == NUL
    ensures Strnlen(s, p, n) == k
    decreases k
  {
    if k > 0 {
      StrnlenIs(s, p + 1, n - 1, k - 1);
    }
  }

  /** A text the heap can hold: not empty and without an inner terminator. */
  ghost predicate Storable(t: string) {
    t != "" && forall i | 0 <= i < |t| :: t[i] != NUL
  }

  /** The bytes of a list of texts, each followed by its terminator. */
  ghost function Image(ts: seq<string>): seq<char> {
    if ts == [] then [] else ts[0] + [NUL] + Image(ts[1..])
  }

  /** Where text `k` begins inside the image. */
  ghost function Offset(ts: seq<string>, k: nat): nat
    requires k <= |ts|
  {
    |Image(ts[..k])|
  }

  lemma {:induction false} ImageSplit(a: seq<string>, b: seq<string>)
    ensures Image(a + b) == Image(a) + Image(b)
  {
    if a == [] {
      assert a + b == b;
    } else {
      ImageSplit(a[1..], b);
      assert (a + b)[1..] == a[1..] + b;
    }
  }

  /** Where text `k` sits inside the image, and what surrounds it. */
  lemma ImageAt(ts: seq<string>, k: nat)
    requires k < |ts|
    ensures Image(ts) == Image(ts[..k]) + ts[k] + [NUL] + Image(ts[k + 1..])
  {
    ImageSplit(ts[..k], ts[k..]);
    assert ts[..k] + ts[k..] == ts && ts[k..][1..] == ts[k + 1..];
    assert Image(ts[k..]) == ts[k] + [NUL] + Image(ts[k + 1..]);
    hide Image;
    assert Image(ts[..k]) + (ts[k] + [NUL] + Image(ts[k + 1..])) == Image(ts[..k]) + ts[k] + [NUL] + Image(ts[k + 1..]);
  }

  /** `t` and its terminator lie in `image` from `o` on. */
  ghost predicate TextIn(image: seq<char>, o: nat, t: string) {
    && o + |t| < |image| && image[o + |t|] == NUL
    && forall i | 0 <= i < |t| :: image[o + i] == t[i]
  }

  lemma ImageHas(ts: seq<string>, k: nat)
    requires k < |ts|
    ensures TextIn(Image(ts), Offset(ts, k), ts[k])
  {
    ImageAt(ts, k);
  }

  lemma ImageSnoc(ts: seq<string>, t: string)
    ensures Image(ts + [t]) == Image(ts) + t + [NUL]
  {
    ImageSplit(ts, [t]);
  }

  /** Without its first text, a list's other texts begin that much earlier. */
  lemma OffsetTail(ts: seq<string>, k: nat)
    requires k < |ts| - 1
    ensures Offset(ts, k + 1) == |ts[0]| + 1 + Offset(ts[1..], k) <= |Image(ts)|
  {
    ImageHas(ts, k + 1);
    assert ts[..k + 1][1..] == ts[1..][..k];
  }

  lemma OffsetInit(ts: seq<string>, k: nat, j: nat)
    requires k <= j <= |ts|
    ensures Offset(ts[..j], k) == Offset(ts, k)
  {
    assert ts[..j][..k] == ts[..k];
  }
}
