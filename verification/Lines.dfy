/** Complete lines of a growing text file. */
module Lines {
  import opened Wrappers

  type Bytes = seq<bv8>

  const NEWLINE: bv8 := 10

  /** Where a line read from `from` stops: past the next newline, else at the end. */
  function LineStop(f: Bytes, from: nat): (stop: nat)
    requires from <= |f|
    ensures from <= stop <= |f|
    ensures stop == from <==> from == |f|
    ensures stop < |f| ==> f[stop - 1] == NEWLINE
    ensures forall i | from <= i < stop - 1 :: f[i] != NEWLINE
    decreases |f| - from
  {
    if from == |f| then from else if f[from] == NEWLINE then from + 1 else LineStop(f, from + 1)
  }

  predicate HasLine(f: Bytes, from: nat)
    requires from <= |f|
  {
    from < |f| && f[LineStop(f, from) - 1] == NEWLINE
  }

  /** No line is split here. */
  predicate AtBoundary(f: Bytes, k: nat) {
    k <= |f| && (k == 0 || f[k - 1] == NEWLINE)
  }

  /** The first line boundary at or after `base`, once the file shows it. */
  function Boundary(f: Bytes, base: nat): (r: Option<nat>)
    requires base <= |f|
    ensures r.Some? ==> base <= r.value <= |f| && AtBoundary(f, r.value)
    ensures forall k | base <= k && (r.Some? ==> k < r.value) :: !AtBoundary(f, k)
  {
    if base == 0 || f[base - 1] == NEWLINE then Some(base)
    else if HasLine(f, base) then Some(LineStop(f, base))
    else None
  }

  predicate Prefix(g: Bytes, f: Bytes) { |g| <= |f| && g == f[..|g|] }

  lemma PrefixSlice(g: Bytes, f: Bytes, a: nat, b: nat)
    requires Prefix(g, f) && a <= b <= |g|
    ensures f[a..b] == g[a..b]
  {
  }

  lemma {:induction false} LineStopExtends(g: Bytes, f: Bytes, from: nat)
    requires Prefix(g, f) && from <= |g| && HasLine(g, from)
    ensures HasLine(f, from) && LineStop(f, from) == LineStop(g, from)
    decreases |g| - from
  {
    if g[from] != NEWLINE { LineStopExtends(g, f, from + 1); }
  }

  lemma {:induction false} LineStopGrows(g: Bytes, f: Bytes, from: nat)
    requires Prefix(g, f) && from <= |g|
    ensures LineStop(g, from) <= LineStop(f, from)
    decreases |g| - from
  {
    if from < |g| && g[from] != NEWLINE { LineStopGrows(g, f, from + 1); }
  }

  lemma {:induction false} LineStopInside(f: Bytes, from: nat, t: nat)
    requires from <= |f| && from <= t < LineStop(f, from)
    ensures LineStop(f, t) == LineStop(f, from)
    decreases t - from
  {
    if from < t { LineStopInside(f, from + 1, t); }
  }

  /** The complete lines from a boundary on. */
  function CompleteLines(f: Bytes, from: nat): (lines: seq<Bytes>)
    requires from <= |f|
    decreases |f| - from
  {
    if HasLine(f, from) then [f[from..LineStop(f, from)]] + CompleteLines(f, LineStop(f, from)) else []
  }

  function Joined(lines: seq<Bytes>): Bytes {
    if lines == [] then [] else lines[0] + Joined(lines[1..])
  }

  lemma {:induction false} EachIsALine(f: Bytes, from: nat, line: Bytes)
    requires from <= |f| && line in CompleteLines(f, from)
    ensures line != [] && line[|line| - 1] == NEWLINE && NEWLINE !in line[..|line| - 1]
    decreases |f| - from
  {
    if line != f[from..LineStop(f, from)] { EachIsALine(f, LineStop(f, from), line); }
  }

  lemma Glue(f: Bytes, a: nat, b: nat, c: nat)
    requires a <= b <= c <= |f|
    ensures f[a..b] + f[b..c] == f[a..c]
  {
  }

  /** Splitting into complete lines loses only a last line without a newline. */
  lemma {:induction false} CompleteLinesCover(f: Bytes, from: nat)
    requires from <= |f|
    ensures var end := from + |Joined(CompleteLines(f, from))|;
      end <= |f| && Joined(CompleteLines(f, from)) == f[from..end] && NEWLINE !in f[end..]
    decreases |f| - from
  {
    var lines := CompleteLines(f, from);
    if HasLine(f, from) {
      var stop := LineStop(f, from);
      CompleteLinesCover(f, stop);
      assert lines[1..] == CompleteLines(f, stop);
      Glue(f, from, stop, stop + |Joined(lines[1..])|);
    } else {
      assert Joined(lines) == f[from..from];
      NoLineNoNewline(f, from);
    }
  }

  lemma NoLineNoNewline(f: Bytes, from: nat)
    requires from <= |f| && !HasLine(f, from)
    ensures NEWLINE !in f[from..]
  {
    forall i | from <= i < |f| ensures f[i] != NEWLINE { }
  }

  lemma {:induction false} JoinedConcat(a: seq<Bytes>, b: seq<Bytes>)
    ensures Joined(a + b) == Joined(a) + Joined(b)
    decreases |a|
  {
    if a == [] {
      assert a + b == b;
    } else {
      assert (a + b)[1..] == a[1..] + b;
      JoinedConcat(a[1..], b);
    }
  }
}
