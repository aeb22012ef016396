/** Bytes, and sequences of byte chunks laid end to end. */
module Bytes {

  type byte = x: int | 0 <= x < 256

  datatype Option<+T> = None | Some(value: T)

  /** `n` zero bytes, what `memset(p, 0, n)` leaves behind. */
  function Zeros(n: nat): (z: seq<byte>)
    ensures |z| == n && forall i :: 0 <= i < n ==> z[i] == 0
  {
    seq(n, _ => 0)
  }

  /** `s` with its element `k` taken out. */
  function Without<T>(s: seq<T>, k: nat): seq<T>
    requires k < |s|
  {
    s[..k] + s[k + 1..]
  }

  /** `s` with the bytes from `off` on replaced by `src`. */
  function Spliced(s: seq<byte>, off: nat, src: seq<byte>): (r: seq<byte>)
    requires off + |src| <= |s|
    ensures |r| == |s|
  {
    s[..off] + src + s[off + |src|..]
  }

  /** The chunks of `s` laid end to end. */
  function Flatten<T>(s: seq<seq<T>>): seq<T> {
    if s == [] then [] else Flatten(s[..|s| - 1]) + s[|s| - 1]
  }

  lemma {:induction false} FlattenConcat<T>(a: seq<seq<T>>, b: seq<seq<T>>)
    ensures Flatten(a + b) == Flatten(a) + Flatten(b)
  {
    if b == [] {
      assert a + b == a;
    } else {
      var init, last := b[..|b| - 1], b[|b| - 1];
      assert (a + b)[..|a + b| - 1] == a + init;
      FlattenConcat(a, init);
      Associates(Flatten(a), Flatten(init), last);
    }
  }

  lemma Associates<T>(a: seq<T>, b: seq<T>, c: seq<T>)
    ensures a + b + c == a + (b + c)
  {
  }

  /** Chunk `k` sits between the chunks before it and the chunks after it. */
  lemma FlattenSplit<T>(s: seq<seq<T>>, k: nat)
    requires k < |s|
    ensures Flatten(s) == Flatten(s[..k]) + s[k] + Flatten(s[k + 1..])
    ensures Flatten(s[..k + 1]) == Flatten(s[..k]) + s[k]
    ensures |Flatten(s[..k])| + |s[k]| <= |Flatten(s)|
  {
    assert s == s[..k + 1] + s[k + 1..];
    FlattenConcat(s[..k + 1], s[k + 1..]);
    assert s[..k + 1][..k] == s[..k];
  }

  lemma FlattenRemove<T>(s: seq<seq<T>>, k: nat)
    requires k < |s|
    ensures Flatten(s[..k] + s[k + 1..]) == Flatten(s[..k]) + Flatten(s[k + 1..])
  {
    FlattenConcat(s[..k], s[k + 1..]);
  }

  lemma FlattenUpdate<T>(s: seq<seq<T>>, k: nat, c: seq<T>)
    requires k < |s|
    ensures Flatten(s[k := c]) == Flatten(s[..k]) + c + Flatten(s[k + 1..])
  {
    FlattenSplit(s[k := c], k);
    assert s[k := c][..k] == s[..k] && s[k := c][k + 1..] == s[k + 1..];
  }

  /** Chunks earlier in the sequence end no later than a later one starts. */
  lemma FlattenMonotone<T>(s: seq<seq<T>>, i: nat, j: nat)
    requires i < j <= |s|
    ensures |Flatten(s[..i])| + |s[i]| <= |Flatten(s[..j])|
  {
    FlattenSplit(s[..j], i);
    assert s[..j][..i] == s[..i];
  }
}
