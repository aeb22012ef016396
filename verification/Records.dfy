/** Records of one size laid end to end. */
module Records {
  import opened Arithmetic
  import opened Bytes

  /** The first `n` records of `size` bytes in `data`. */
  function Rows(data: seq<byte>, size: nat, n: nat): seq<seq<byte>> {
    if n == 0 || |data| < size then [] else [data[..size]] + Rows(data[size..], size, n - 1)
  }

  ghost predicate Uniform(rows: seq<seq<byte>>, size: nat) {
    forall i :: 0 <= i < |rows| ==> |rows[i]| == size
  }

  lemma {:induction false} RowAt(data: seq<byte>, size: nat, n: nat, i: nat)
    requires n * size <= |data|
    ensures |Rows(data, size, n)| == n
    ensures i < n ==>
      0 <= i * size && i * size + size <= |data| && Rows(data, size, n)[i] == data[i * size..i * size + size]
  {
    if n > 0 {
      MulMonotone(1, n, size);
      assert (n - 1) * size == n * size - size;
      if i == 0 {
        RowAt(data[size..], size, n - 1, 0);
      } else {
        RowAt(data[size..], size, n - 1, i - 1);
        assert (i - 1) * size == i * size - size;
        if i < n {
          assert data[size..][(i - 1) * size..(i - 1) * size + size] == data[i * size..i * size + size];
        }
      }
    }
  }

  lemma OneRowMore(m: nat, size: nat)
    ensures (m + 1) * size == m * size + size
  {
  }

  lemma RowsApart(i: nat, k: nat, size: nat)
    requires i < k
    ensures i * size + size <= k * size
  {
    MulMonotone(i + 1, k, size);
    OneRowMore(i, size);
  }

  lemma SplicedElsewhere(data: seq<byte>, off: nat, src: seq<byte>, from: nat, n: nat)
    requires off + |src| <= |data| && from + n <= |data| && (from + n <= off || off + |src| <= from)
    ensures Spliced(data, off, src)[from..from + n] == data[from..from + n]
  {
  }

  lemma SplicedThere(data: seq<byte>, off: nat, src: seq<byte>)
    requires off + |src| <= |data|
    ensures Spliced(data, off, src)[off..off + |src|] == src
  {
  }

  /** A row put behind `front` is found there, and the rows in `front` stay. */
  lemma LastRow(front: seq<byte>, row: seq<byte>, n: nat, size: nat, from: int)
    requires |front| == n && |row| == size
    ensures (front + row)[n..n + size] == row
    ensures 0 <= from && from + size <= n ==> (front + row)[from..from + size] == front[from..from + size]
  {
  }

  lemma {:induction false} FlattenRow(rows: seq<seq<byte>>, size: nat, i: nat)
    requires Uniform(rows, size)
    ensures |Flatten(rows)| == |rows| * size
    ensures i < |rows| ==>
      0 <= i * size && i * size + size <= |rows| * size && Flatten(rows)[i * size..i * size + size] == rows[i]
    decreases |rows|
  {
    MulMonotone(0, i, size);
    if rows != [] {
      var m := |rows| - 1;
      FlattenRow(rows[..m], size, i);
      hide Flatten, Uniform;
      OneRowMore(m, size);
      if i < m {
        RowsApart(i, m, size);
      }
      LastRow(Flatten(rows[..m]), rows[m], m * size, size, i * size);
    }
  }

  lemma SameRows(a: seq<seq<byte>>, b: seq<seq<byte>>)
    requires |a| == |b| && forall i :: 0 <= i < |a| ==> a[i] == b[i]
    ensures a == b
  {
  }

  /** Copying records in after the `n` present ones appends them. */
  lemma AppendRows(data: seq<byte>, size: nat, n: nat, rows: seq<seq<byte>>)
    requires Uniform(rows, size) && (n + |rows|) * size <= |data|
    ensures n * size + |Flatten(rows)| <= |data| && 0 <= n * size
    ensures Rows(Spliced(data, n * size, Flatten(rows)), size, n + |rows|) == Rows(data, size, n) + rows
  {
    FlattenRow(rows, size, 0);
    assert (n + |rows|) * size == n * size + |rows| * size;
    MulMonotone(0, n, size);
    var data' := Spliced(data, n * size, Flatten(rows));
    RowAt(data', size, n + |rows|, 0);
    RowAt(data, size, n, 0);
    forall i | 0 <= i < n + |rows| ensures Rows(data', size, n + |rows|)[i] == (Rows(data, size, n) + rows)[i] {
      AppendedRow(data, size, n, rows, i);
    }
    SameRows(Rows(data', size, n + |rows|), Rows(data, size, n) + rows);
  }

  lemma SliceOfSlice(a: seq<byte>, p: nat, b: seq<byte>, q: nat, n: nat)
    requires p + |b| <= |a| && a[p..p + |b|] == b && q + n <= |b|
    ensures a[p + q..p + q + n] == b[q..q + n]
  {
    assert forall t :: 0 <= t < |b| ==> b[t] == a[p..p + |b|][t] == a[p + t];
  }

  lemma NewRow(data: seq<byte>, size: nat, n: nat, rows: seq<seq<byte>>, j: nat)
    requires Uniform(rows, size) && j < |rows|
    requires 0 <= n * size && n * size + |Flatten(rows)| <= |data|
    ensures 0 <= (n + j) * size && (n + j) * size + size <= |data|
    ensures Spliced(data, n * size, Flatten(rows))[(n + j) * size..(n + j) * size + size] == rows[j]
  {
    var at, off := n * size, j * size;
    FlattenRow(rows, size, j);
    MulMonotone(0, j, size);
    assert (n + j) * size == at + off;
    SliceOfSlice(Spliced(data, at, Flatten(rows)), at, Flatten(rows), off, size);
  }

  lemma AppendedRow(data: seq<byte>, size: nat, n: nat, rows: seq<seq<byte>>, i: nat)
    requires Uniform(rows, size) && (n + |rows|) * size <= |data| && i < n + |rows|
    requires 0 <= n * size && n * size + |Flatten(rows)| <= |data| && n * size <= |data|
    ensures |Rows(data, size, n)| == n
    ensures |Rows(Spliced(data, n * size, Flatten(rows)), size, n + |rows|)| == n + |rows|
    ensures Rows(Spliced(data, n * size, Flatten(rows)), size, n + |rows|)[i] == (Rows(data, size, n) + rows)[i]
  {
    var at, src := n * size, Flatten(rows);
    RowAt(Spliced(data, at, src), size, n + |rows|, i);
    RowAt(data, size, n, i);
    if i < n {
      RowsApart(i, n, size);
      MulMonotone(0, i, size);
      hide Flatten, Spliced, Rows;
      SplicedElsewhere(data, at, src, i * size, size);
    } else {
      hide Flatten, Spliced, Rows;
      NewRow(data, size, n, rows, i - n);
    }
  }

  lemma ReplacedRow(data: seq<byte>, size: nat, n: nat, k: nat, row: seq<byte>, i: nat)
    requires n * size <= |data| && k < n && i < n && |row| == size && 0 <= k * size && k * size + size <= |data|
    ensures |Rows(Spliced(data, k * size, row), size, n)| == n && |Rows(data, size, n)| == n
    ensures Rows(Spliced(data, k * size, row), size, n)[i] == if i == k then row else Rows(data, size, n)[i]
  {
    RowAt(data, size, n, i);
    RowAt(Spliced(data, k * size, row), size, n, i);
    MulMonotone(0, i, size);
    if i < k {
      RowsApart(i, k, size);
      SplicedElsewhere(data, k * size, row, i * size, size);
    } else if i > k {
      RowsApart(k, i, size);
      SplicedElsewhere(data, k * size, row, i * size, size);
    } else {
      SplicedThere(data, k * size, row);
    }
  }

  /** Overwriting one record replaces that row only. */
  lemma ReplaceRow(data: seq<byte>, size: nat, n: nat, k: nat, row: seq<byte>)
    requires n * size <= |data| && k < n && |row| == size
    ensures 0 <= k * size && k * size + size <= |data| && |Rows(data, size, n)| == n
    ensures Rows(Spliced(data, k * size, row), size, n) == Rows(data, size, n)[k := row]
  {
    RowAt(data, size, n, k);
    var data' := Spliced(data, k * size, row);
    RowAt(data', size, n, 0);
    forall i | 0 <= i < n ensures Rows(data', size, n)[i] == Rows(data, size, n)[k := row][i] {
      ReplacedRow(data, size, n, k, row, i);
    }
    SameRows(Rows(data', size, n), Rows(data, size, n)[k := row]);
  }

  /** Reading the records back as one run of bytes. */
  lemma {:induction false} RowsFlatten(data: seq<byte>, size: nat, n: nat)
    requires n * size <= |data|
    ensures Flatten(Rows(data, size, n)) == data[..n * size] && Uniform(Rows(data, size, n), size)
  {
    if n > 0 {
      MulMonotone(1, n, size);
      assert (n - 1) * size == n * size - size;
      RowsFlatten(data[size..], size, n - 1);
      FlattenConcat([data[..size]], Rows(data[size..], size, n - 1));
      assert Flatten([data[..size]]) == data[..size];
      assert data[..n * size] == data[..size] + data[size..][..(n - 1) * size];
    }
  }
}
