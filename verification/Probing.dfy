/** Double hashing over a prime-sized table, as higplat's registry, boards and databases use it. */
module Probing {
  import opened Arithmetic

  const TABLESIZE := 277
  const INDEXSIZE := 7177
  const MARKER := "CT0D9GG_~$59"
  const MAXNAME := 40

  /** Item, table and queue names: ASCII, terminated inside a 40-byte field, never the tombstone text. */
  predicate IsName(s: string) {
    && 0 < |s| < MAXNAME
    && s != MARKER
    && forall i :: 0 <= i < |s| ==> 0 < s[i] as int < 128
  }

  function CharSum(s: string): nat {
    if s == "" then 0 else CharSum(s[..|s| - 1]) + s[|s| - 1] as int
  }

  function Hash1(s: string): (h: nat)
    ensures h < TABLESIZE
  {
    CharSum(s) % TABLESIZE
  }

  function Hash2(s: string): (h: nat)
    ensures 1 <= h < TABLESIZE - 2
  {
    var r := CharSum(s) % (TABLESIZE - 2);
    if r == 0 then 1 else r
  }

  method ComputeHash1(s: string) returns (h: nat)
    ensures h == Hash1(s)
  {
    var k := 0;
    for i := 0 to |s|
      invariant k == CharSum(s[..i])
    {
      assert s[..i + 1][..i] == s[..i];
      k := k + s[i] as int;
    }
    assert s[..|s|] == s;
    h := k % TABLESIZE;
  }

  method ComputeHash2(s: string) returns (h: nat)
    ensures h == Hash2(s)
  {
    var k := 0;
    for i := 0 to |s|
      invariant k == CharSum(s[..i])
    {
      assert s[..i + 1][..i] == s[..i];
      k := k + s[i] as int;
    }
    assert s[..|s|] == s;
    var remain := k % (TABLESIZE - 2);
    h := if remain == 0 then 1 else remain;
  }

  /** The hashes are those of the sum of the character codes. */
  lemma {:induction false} SumOfCodes(a: string, b: string)
    ensures CharSum(a + b) == CharSum(a) + CharSum(b)
    ensures |b| == 1 ==> CharSum(b) == b[0] as int
  {
    if b == [] {
      assert a + b == a;
    } else {
      assert (a + b)[..|a + b| - 1] == a + b[..|b| - 1];
      SumOfCodes(a, b[..|b| - 1]);
    }
  }

  /** The start slot is the sum modulo 277; the stride is the sum modulo 275, or 1 where that is 0. */
  lemma HashesMean(s: string)
    ensures (CharSum(s) - Hash1(s)) % 277 == 0 && Hash1(s) < 277
    ensures CharSum(s) % 275 == 0 ==> Hash2(s) == 1
    ensures CharSum(s) % 275 != 0 ==> (CharSum(s) - Hash2(s)) % 275 == 0 && 0 < Hash2(s) < 275
  {
  }

  // ---- Primes ----

  ghost predicate Prime(p: nat) {
    2 <= p && forall d :: 2 <= d < p ==> p % d != 0
  }

  /** Trial division up to the square root is enough. */
  lemma PrimeByTrial(p: nat, n: nat)
    requires 2 <= n < p < n * n
    requires forall d :: 2 <= d < n ==> p % d != 0
    ensures Prime(p)
  {
    forall d | 2 <= d < p ensures p % d != 0 {
      if d >= n && p % d == 0 {
        CofactorBelow(p, n, d);
      }
    }
  }

  lemma CofactorBelow(p: nat, n: nat, d: nat)
    requires 2 <= n <= d < p < n * n && p % d == 0
    ensures 2 <= p / d < n && p % (p / d) == 0
  {
    var q := p / d;
    assert p == q * d;
    if q >= n {
      MulMonotone(n, q, d);
      MulMonotone(n, d, n);
    }
    if q <= 1 {
      MulMonotone(q, 1, d);
    }
    MultipleMod(d, q);
  }

  lemma TableSizesArePrime()
    ensures Prime(TABLESIZE) && Prime(INDEXSIZE) && TABLESIZE == 277 && INDEXSIZE == 7177
  {
    PrimeByTrial(TABLESIZE, 17);
    assert forall d :: 2 <= d < 85 ==> 7177 % d != 0;
    PrimeByTrial(INDEXSIZE, 85);
  }

  lemma Rearranged(p: int, a: int, b: int, q: int, r: int, m: int)
    requires p == q * a + r && a * b == m * p
    ensures r * b == (b - q * m) * p
  {
    calc {
      r * b;
      (p - q * a) * b;
      p * b - q * (a * b);
      p * b - q * (m * p);
      (b - q * m) * p;
    }
  }

  /** Euclid: a prime does not divide a product of two smaller positive factors. */
  lemma {:induction false} PrimeProduct(p: nat, a: nat, b: nat)
    requires Prime(p) && 0 < a < p && 0 < b < p
    ensures (a * b) % p != 0
    decreases a
  {
    if (a * b) % p == 0 && a != 1 {
      var q, r, m := p / a, p % a, (a * b) / p;
      Rearranged(p, a, b, q, r, m);
      MultipleMod(b - q * m, p);
      PrimeProduct(p, r, b);
    }
  }

  // ---- The probe sequence ----

  /** `k` turns of the probe loop from `h` with step `c`. */
  function Walk(p: nat, h: nat, c: nat, k: nat): (loc: nat)
    requires h < p
    ensures loc < p
  {
    if k == 0 then h else (Walk(p, h, c, k - 1) + c) % p
  }

  /** The `k`-th slot visited when probing for `name` in a table of `p` slots. */
  function At(p: nat, name: string, k: nat): (loc: nat)
    requires TABLESIZE <= p
    ensures loc < p
  {
    Walk(p, Hash1(name), Hash2(name), k)
  }

  /** One step of the probe loop. */
  lemma AtNext(p: nat, name: string, k: nat)
    requires TABLESIZE <= p
    ensures At(p, name, 0) == Hash1(name) && At(p, name, k + 1) == (At(p, name, k) + Hash2(name)) % p
  {
  }

  lemma OneStride(p: nat, h: nat, c: nat, k: nat)
    requires 0 < p && 0 < k
    ensures ((h + (k - 1) * c) % p + c) % p == (h + k * c) % p
  {
    var before := (k - 1) * c;
    assert before + c == k * c;
    ModAddLeft(h + before, c, p);
  }

  lemma {:induction false} WalkClosedForm(p: nat, h: nat, c: nat, k: nat)
    requires h < p
    ensures Walk(p, h, c, k) == (h + k * c) % p
    decreases k
  {
    if k > 0 {
      WalkClosedForm(p, h, c, k - 1);
      OneStride(p, h, c, k);
    }
  }

  lemma AtInjective(p: nat, name: string, i: nat, j: nat)
    requires TABLESIZE <= p && Prime(p) && i < j < p
    ensures At(p, name, i) != At(p, name, j)
  {
    var h, c := Hash1(name), Hash2(name);
    WalkClosedForm(p, h, c, i);
    WalkClosedForm(p, h, c, j);
    StridesDiffer(h, c, i, j, p);
  }

  lemma StridesDiffer(h: nat, c: nat, i: nat, j: nat, p: nat)
    requires Prime(p) && 0 < c < p && i < j < p
    ensures (h + i * c) % p != (h + j * c) % p
  {
    if (h + i * c) % p == (h + j * c) % p {
      SameResidue(h + i * c, h + j * c, p);
      assert (j - i) * c == j * c - i * c;
      PrimeProduct(p, j - i, c);
    }
  }

  /** The slots visited by the first `n` probes. */
  ghost function Visited(p: nat, name: string, n: nat): (v: set<nat>)
    requires TABLESIZE <= p
  {
    set k | 0 <= k < n :: At(p, name, k)
  }

  lemma {:induction false} VisitedCount(p: nat, name: string, n: nat)
    requires TABLESIZE <= p && Prime(p) && n <= p
    ensures |Visited(p, name, n)| == n
  {
    if n > 0 {
      VisitedCount(p, name, n - 1);
      assert Visited(p, name, n) == Visited(p, name, n - 1) + {At(p, name, n - 1)};
      forall k | 0 <= k < n - 1 ensures At(p, name, k) != At(p, name, n - 1) {
        AtInjective(p, name, k, n - 1);
      }
    }
  }

  lemma {:induction false} SubsetOfRange(s: set<nat>, p: nat)
    requires forall x :: x in s ==> x < p
    ensures |s| <= p
    ensures |s| == p ==> forall x :: 0 <= x < p ==> x in s
    decreases p
  {
    if p == 0 {
      assert s == {};
    } else {
      var t := s - {p - 1};
      SubsetOfRange(t, p - 1);
      assert s == if p - 1 in s then t + {p - 1} else t;
    }
  }

  /** Within one cycle of `p` probes every slot of the table is visited. */
  lemma ProbeCovers(p: nat, name: string, loc: nat)
    requires TABLESIZE <= p && Prime(p) && loc < p
    ensures exists k :: 0 <= k < p && At(p, name, k) == loc
  {
    VisitedCount(p, name, p);
    SubsetOfRange(Visited(p, name, p), p);
    assert loc in Visited(p, name, p);
  }

  lemma ProbeOf(p: nat, name: string, loc: nat) returns (k: nat)
    requires TABLESIZE <= p && Prime(p) && loc < p
    ensures k < p && At(p, name, k) == loc
  {
    ProbeCovers(p, name, loc);
    k :| k < p && At(p, name, k) == loc;
  }

  // ---- Open addressing with tombstones ----
  // A table is seen here as the sequence of its slots' names: "" for a slot never used,
  // MARKER for a tombstone, anything else for a live entry.

  ghost predicate LiveName(s: string) {
    s != "" && s != MARKER
  }

  ghost function NeverUsed(names: seq<string>): set<nat> {
    set l: nat | l < |names| && names[l] == ""
  }

  lemma {:induction false} AllNeverUsed(names: seq<string>)
    requires forall l :: 0 <= l < |names| ==> names[l] == ""
    ensures |NeverUsed(names)| == |names|
  {
    if names != [] {
      var n := |names| - 1;
      AllNeverUsed(names[..n]);
      assert NeverUsed(names) == NeverUsed(names[..n]) + {n};
    }
  }

  /** Naming a slot uses up a never-used one exactly when it was such a slot. */
  lemma NeverUsedAfter(names: seq<string>, l: nat, s: string)
    requires l < |names| && s != ""
    ensures |NeverUsed(names[l := s])| == |NeverUsed(names)| - if names[l] == "" then 1 else 0
  {
    assert NeverUsed(names[l := s]) == NeverUsed(names) - {l};
  }

  /** A lookup ends exactly when a never-used slot is left or the name is there. */
  lemma SomeNeverUsed(names: seq<string>, name: string)
    ensures (exists l :: 0 <= l < |names| && Stops(names, name, l)) <==> |NeverUsed(names)| > 0 || name in names
  {
    if |NeverUsed(names)| > 0 {
      var l :| l in NeverUsed(names);
      assert Stops(names, name, l);
    }
    if name in names {
      var l :| 0 <= l < |names| && names[l] == name;
      assert Stops(names, name, l);
    }
    if l :| 0 <= l < |names| && Stops(names, name, l) {
      assert names[l] == "" ==> l in NeverUsed(names);
    }
  }

  /** The lookup loops stop at a never-used slot or at a match. */
  ghost predicate Stops(names: seq<string>, name: string, loc: nat)
    requires loc < |names|
  {
    names[loc] == "" || names[loc] == name
  }

  /** Probe `k` is where the lookup loop for `name` stops. */
  ghost predicate StopsFirst(names: seq<string>, name: string, k: nat)
    requires TABLESIZE <= |names|
  {
    && Stops(names, name, At(|names|, name, k))
    && forall j :: 0 <= j < k ==> !Stops(names, name, At(|names|, name, j))
  }

  /** The entry in slot `loc` is its own `k`-th probe, and no earlier probe meets a never-used slot. */
  ghost predicate ReachedBy(names: seq<string>, loc: nat, k: nat)
    requires TABLESIZE <= |names| && loc < |names|
  {
    && At(|names|, names[loc], k) == loc
    && forall j :: 0 <= j < k ==> names[At(|names|, names[loc], j)] != ""
  }

  ghost predicate Reachable(names: seq<string>)
    requires TABLESIZE <= |names|
  {
    forall loc :: 0 <= loc < |names| && LiveName(names[loc]) ==> exists k: nat :: ReachedBy(names, loc, k)
  }

  ghost predicate Distinct(names: seq<string>) {
    forall i, j :: 0 <= i < j < |names| && LiveName(names[i]) ==> names[i] != names[j]
  }

  /** What every registry, board and database index keeps. */
  ghost predicate ProbeTable(names: seq<string>) {
    TABLESIZE <= |names| && Prime(|names|) && Reachable(names) && Distinct(names)
  }

  /** The lookup loop ends exactly when some slot is never used or holds the name. */
  lemma LookupEndsIff(names: seq<string>, name: string)
    requires TABLESIZE <= |names| && Prime(|names|)
    ensures (exists k: nat :: StopsFirst(names, name, k))
       <==> (exists loc :: 0 <= loc < |names| && Stops(names, name, loc))
    ensures forall k: nat :: StopsFirst(names, name, k) ==> k < |names|
  {
    if loc :| 0 <= loc < |names| && Stops(names, name, loc) {
      ProbeCovers(|names|, name, loc);
      var k: nat :| k < |names| && At(|names|, name, k) == loc;
      var first := LeastStop(names, name, k);
      forall k': nat | StopsFirst(names, name, k') ensures k' < |names| {
      }
    }
    if k: nat :| StopsFirst(names, name, k) {
      assert Stops(names, name, At(|names|, name, k));
    }
  }

  lemma {:induction false} LeastStop(names: seq<string>, name: string, k: nat) returns (first: nat)
    requires TABLESIZE <= |names| && Stops(names, name, At(|names|, name, k))
    ensures first <= k && StopsFirst(names, name, first)
  {
    if j :| 0 <= j < k && Stops(names, name, At(|names|, name, j)) {
      first := LeastStop(names, name, j);
    } else {
      first := k;
    }
  }

  /** Lookup finds a live name in the slot that holds it, past every tombstone. */
  lemma LookupFindsLive(names: seq<string>, name: string, loc: nat, k: nat)
    requires ProbeTable(names) && loc < |names| && names[loc] == name && LiveName(name)
    requires StopsFirst(names, name, k)
    ensures At(|names|, name, k) == loc
  {
    var r: nat :| ReachedBy(names, loc, r);
    if k < r {
      assert names[At(|names|, name, k)] == name;
    }
  }

  /** Lookup answers "found" exactly for the live names. */
  lemma LookupFindsIff(names: seq<string>, name: string, k: nat)
    requires ProbeTable(names) && LiveName(name) && StopsFirst(names, name, k)
    ensures names[At(|names|, name, k)] == name <==> name in names
  {
    if name in names {
      var loc :| 0 <= loc < |names| && names[loc] == name;
      LookupFindsLive(names, name, loc, k);
    }
  }

  /** Filling the first reusable slot on a new name's path keeps every entry reachable. */
  lemma InsertKeeps(names: seq<string>, name: string, k: nat)
    requires ProbeTable(names) && LiveName(name) && name !in names
    requires !LiveName(names[At(|names|, name, k)])
    requires forall j :: 0 <= j < k ==> LiveName(names[At(|names|, name, j)])
    ensures ProbeTable(names[At(|names|, name, k) := name])
  {
    var at := At(|names|, name, k);
    var names' := names[at := name];
    forall loc | 0 <= loc < |names'| && LiveName(names'[loc])
      ensures exists r: nat :: ReachedBy(names', loc, r)
    {
      if loc == at {
        assert ReachedBy(names', loc, k);
      } else {
        var r: nat :| ReachedBy(names, loc, r);
        assert ReachedBy(names', loc, r);
      }
    }
  }

  /** Leaving a tombstone keeps every other entry reachable. */
  lemma DeleteKeeps(names: seq<string>, loc: nat)
    requires ProbeTable(names) && loc < |names|
    ensures ProbeTable(names[loc := MARKER])
  {
    var names' := names[loc := MARKER];
    forall l | 0 <= l < |names'| && LiveName(names'[l])
      ensures exists r: nat :: ReachedBy(names', l, r)
    {
      var r: nat :| ReachedBy(names, l, r);
      assert ReachedBy(names', l, r);
    }
  }
}
