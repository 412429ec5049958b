/** Cutting work into pieces: insert statements under Postgres's parameter limit, and worker batches. */
module Chunking {
  const MAX_PARAMS: nat := 65535

  /** `slice.chunks(n)`: pieces of n elements, the last one possibly shorter. */
  function Chunks<T>(s: seq<T>, n: nat): seq<seq<T>>
    requires n > 0
    decreases |s|
  {
    if |s| <= n then (if s == [] then [] else [s]) else [s[..n]] + Chunks(s[n..], n)
  }

  function Join<T>(pieces: seq<seq<T>>): seq<T> {
    if pieces == [] then [] else pieces[0] + Join(pieces[1..])
  }

  /** The pieces are non-empty, never longer than n, and together are the input in order. */
  lemma {:induction false} ChunksMeaning<T>(s: seq<T>, n: nat)
    requires n > 0
    ensures Join(Chunks(s, n)) == s
    ensures forall k | 0 <= k < |Chunks(s, n)| :: 0 < |Chunks(s, n)[k]| <= n
    decreases |s|
  {
    if |s| > n {
      ChunksMeaning(s[n..], n);
      assert Chunks(s, n)[1..] == Chunks(s[n..], n);
    } else if s != [] {
      assert Join([s]) == s + Join([s][1..]) && [s][1..] == [];
    }
  }

  /** k pieces of n are enough for up to n * k elements. */
  lemma {:induction false} ChunkCount<T>(s: seq<T>, n: nat, k: nat)
    requires n > 0 && |s| <= n * k
    ensures |Chunks(s, n)| <= k
    decreases k
  {
    if |s| > n {
      assert |s[n..]| <= n * (k - 1);
      ChunkCount(s[n..], n, k - 1);
    } else if s != [] {
      assert k > 0;
    }
  }

  /** Rows per insert statement: a margin of 8 rows below the limit, at least one row, at most cap rows. */
  function MaxRows(width: nat, cap: nat): nat
    requires width > 0
  {
    var fit := MAX_PARAMS / width;
    var rows := if fit < 9 then 1 else fit - 8;
    if rows < cap then rows else cap
  }

  /** No statement ever binds more parameters than Postgres accepts. */
  lemma StatementFits(width: nat, cap: nat, rows: nat)
    requires 0 < width <= MAX_PARAMS && cap > 0 && rows <= MaxRows(width, cap)
    ensures MaxRows(width, cap) > 0
    ensures rows * width <= MAX_PARAMS
  {
    var fit := MAX_PARAMS / width;
    assert fit * width <= MAX_PARAMS;
    assert rows <= 1 || rows <= fit;
    if rows <= 1 {
      assert rows * width <= width;
    } else {
      assert rows * width <= fit * width;
    }
  }

  /** The placeholder numbers of one statement, in query order: every parameter once, from 1 up. */
  method Placeholders(rows: nat, width: nat) returns (numbers: seq<nat>)
    ensures |numbers| == rows * width
    ensures forall k | 0 <= k < |numbers| :: numbers[k] == k + 1
  {
    numbers := [];
    for i := 0 to rows
      invariant |numbers| == i * width
      invariant forall k | 0 <= k < |numbers| :: numbers[k] == k + 1
    {
      var base := i * width;
      for c := 0 to width
        invariant |numbers| == base + c
        invariant forall k | 0 <= k < |numbers| :: numbers[k] == k + 1
      {
        numbers := numbers + [base + c + 1];
      }
    }
  }
}
