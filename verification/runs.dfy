/** The run-length pass of lynximg.c (`scan_line`): a row of palette indices
    becomes a list of (repeatcount, colour) runs. */
module RunLength {

  /** One `packed_data` node: `count` copies of palette index `color`. */
  datatype Run = Run(count: nat, color: bv8)

  function Repeat(color: bv8, n: nat): (s: seq<bv8>)
    ensures |s| == n && forall i :: 0 <= i < n ==> s[i] == color
  {
    seq(n, _ => color)
  }

  /** The row a run list stands for. */
  function Expand(runs: seq<Run>): seq<bv8> {
    if runs == [] then [] else Repeat(runs[0].color, runs[0].count) + Expand(runs[1..])
  }

  function TotalCount(runs: seq<Run>): nat {
    if runs == [] then 0 else runs[0].count + TotalCount(runs[1..])
  }

  /** No run is empty and no two neighbouring runs have the same colour. */
  predicate Maximal(runs: seq<Run>) {
    (forall i :: 0 <= i < |runs| ==> runs[i].count >= 1)
    && (forall i :: 0 < i < |runs| ==> runs[i - 1].color != runs[i].color)
  }

  lemma {:induction false} ExpandAppend(a: seq<Run>, b: seq<Run>)
    ensures Expand(a + b) == Expand(a) + Expand(b)
  {
    if a == [] {
      assert a + b == b;
    } else {
      assert (a + b)[1..] == a[1..] + b;
      ExpandAppend(a[1..], b);
    }
  }

  lemma ExpandCons(r: Run, rs: seq<Run>)
    ensures Expand([r] + rs) == Repeat(r.color, r.count) + Expand(rs)
  {
    assert ([r] + rs)[1..] == rs;
  }

  lemma RepeatSucc(color: bv8, n: nat)
    ensures Repeat(color, n + 1) == [color] + Repeat(color, n)
    ensures Repeat(color, n + 1) == Repeat(color, n) + [color]
  {
  }

  lemma ExpandSingle(r: Run)
    ensures Expand([r]) == Repeat(r.color, r.count)
  {
    assert [r][1..] == [];
  }

  /** The repeat counts add up to the length of the row they stand for. */
  lemma {:induction false} ExpandLength(runs: seq<Run>)
    ensures |Expand(runs)| == TotalCount(runs)
  {
    if runs != [] {
      ExpandLength(runs[1..]);
    }
  }

  /** Growing the last run by one appends its colour once more. */
  lemma GrowLast(done: seq<Run>, last: Run)
    ensures Expand(done + [Run(last.count + 1, last.color)]) == Expand(done + [last]) + [last.color]
  {
    ExpandAppend(done, [Run(last.count + 1, last.color)]);
    ExpandAppend(done, [last]);
    ExpandSingle(Run(last.count + 1, last.color));
    ExpandSingle(last);
  }

  /** Closing the last run and opening a new one of length 1. */
  lemma StartRun(done: seq<Run>, last: Run, color: bv8)
    ensures Expand(done + [last] + [Run(1, color)]) == Expand(done + [last]) + [color]
  {
    ExpandAppend(done + [last], [Run(1, color)]);
    ExpandSingle(Run(1, color));
  }

  /** A row starts with the colour of its first run. */
  lemma ExpandHead(runs: seq<Run>)
    requires runs != [] && runs[0].count >= 1
    ensures Expand(runs) != [] && Expand(runs)[0] == runs[0].color
  {
  }

  /** Only the empty list of non-empty runs stands for the empty row. */
  lemma ExpandEmpty(runs: seq<Run>)
    requires Maximal(runs)
    ensures Expand(runs) == [] <==> runs == []
  {
    if runs != [] {
      assert |Expand(runs)| >= runs[0].count;
    }
  }

  lemma MaximalSnoc(runs: seq<Run>, r: Run)
    requires Maximal(runs) && r.count >= 1
    requires runs != [] ==> runs[|runs| - 1].color != r.color
    ensures Maximal(runs + [r])
  {
    var s := runs + [r];
    forall i | 0 < i < |s|
      ensures s[i - 1].color != s[i].color
    {
      if i < |runs| {
        assert s[i - 1] == runs[i - 1] && s[i] == runs[i];
      }
    }
  }

  /** A maximal run list is determined by the row it stands for: there is
      only one maximal run-length encoding of a row. */
  lemma {:induction false} MaximalUnique(a: seq<Run>, b: seq<Run>)
    requires Maximal(a) && Maximal(b) && Expand(a) == Expand(b)
    ensures a == b
  {
    ExpandEmpty(a);
    ExpandEmpty(b);
    if a == [] || b == [] {
    } else {
      var ea, eb := Expand(a), Expand(b);
      assert ea[0] == a[0].color && eb[0] == b[0].color;
      if a[0].count < b[0].count {
        Distinguish(a, b);
      } else if b[0].count < a[0].count {
        Distinguish(b, a);
      }
      assert a[0] == b[0];
      assert ea[a[0].count..] == Expand(a[1..]);
      assert eb[b[0].count..] == Expand(b[1..]);
      MaximalUnique(a[1..], b[1..]);
      assert a == [a[0]] + a[1..] && b == [b[0]] + b[1..];
    }
  }

  /** Two maximal run lists whose first runs start alike but differ in length
      do not stand for the same row. */
  lemma Distinguish(a: seq<Run>, b: seq<Run>)
    requires Maximal(a) && Maximal(b) && a != [] && b != []
    requires a[0].color == b[0].color && a[0].count < b[0].count
    ensures Expand(a) != Expand(b)
  {
    var n := a[0].count;
    var eb := Expand(b);
    assert eb[n] == b[0].color;
    if |a| == 1 {
      ExpandSingle(a[0]);
      assert |Expand(a)| == n;
    } else {
      var ea := Expand(a);
      assert ea[n..] == Expand(a[1..]);
      assert Expand(a[1..])[0] == a[1].color;
      assert ea[n] == a[1].color != a[0].color;
    }
  }

  /** The maximal run-length encoding of a row, built from the right: a pixel
      joins the first run when it has that run's colour, otherwise it opens
      a run of its own. */
  function RunsOf(data: seq<bv8>): (runs: seq<Run>)
    ensures |runs| <= |data|
    ensures data != [] ==> runs != [] && runs[0].color == data[0]
    decreases |data|
  {
    if data == [] then []
    else
      var rest := RunsOf(data[1..]);
      if rest != [] && rest[0].color == data[0] then [Run(rest[0].count + 1, data[0])] + rest[1..]
      else [Run(1, data[0])] + rest
  }

  /** `RunsOf` is a maximal encoding of the row. */
  lemma {:induction false} RunsOfCorrect(data: seq<bv8>)
    ensures Expand(RunsOf(data)) == data && Maximal(RunsOf(data))
    decreases |data|
  {
    if data != [] {
      var rest := RunsOf(data[1..]);
      RunsOfCorrect(data[1..]);
      if rest != [] && rest[0].color == data[0] {
        JoinFirst(data[0], rest);
      } else {
        OpenRun(data[0], rest);
      }
      assert data == [data[0]] + data[1..];
    }
  }

  /** A pixel of the first run's colour in front of a maximal encoding lengthens that run. */
  lemma JoinFirst(x: bv8, rest: seq<Run>)
    requires Maximal(rest) && rest != [] && rest[0].color == x
    ensures Expand([Run(rest[0].count + 1, x)] + rest[1..]) == [x] + Expand(rest)
    ensures Maximal([Run(rest[0].count + 1, x)] + rest[1..])
  {
    JoinFirstExpand(x, rest);
    JoinFirstMaximal(x, rest);
  }

  lemma JoinFirstExpand(x: bv8, rest: seq<Run>)
    requires rest != [] && rest[0].color == x
    ensures Expand([Run(rest[0].count + 1, x)] + rest[1..]) == [x] + Expand(rest)
  {
    var c := rest[0].count;
    var tail := Expand(rest[1..]);
    ExpandCons(Run(c + 1, x), rest[1..]);
    assert Expand(rest) == Repeat(x, c) + tail;
    PrependRepeat(x, c, tail);
  }

  /** One more copy in front of a block of copies. */
  lemma PrependRepeat(x: bv8, c: nat, tail: seq<bv8>)
    ensures Repeat(x, c + 1) + tail == [x] + (Repeat(x, c) + tail)
  {
    var l, r := Repeat(x, c + 1) + tail, [x] + (Repeat(x, c) + tail);
    forall i | 0 <= i < |l|
      ensures l[i] == r[i]
    {
      if i > 0 {
        assert r[i] == (Repeat(x, c) + tail)[i - 1];
      }
    }
  }

  lemma JoinFirstMaximal(x: bv8, rest: seq<Run>)
    requires Maximal(rest) && rest != [] && rest[0].color == x
    ensures Maximal([Run(rest[0].count + 1, x)] + rest[1..])
  {
    var runs := [Run(rest[0].count + 1, x)] + rest[1..];
    forall i | 0 < i < |runs|
      ensures runs[i - 1].color != runs[i].color
    {
      assert runs[i] == rest[i];
      if i > 1 {
        assert runs[i - 1] == rest[i - 1];
      }
    }
  }

  /** A pixel of another colour in front of a maximal encoding opens a run of one. */
  lemma OpenRun(x: bv8, rest: seq<Run>)
    requires Maximal(rest) && (rest != [] ==> rest[0].color != x)
    ensures Expand([Run(1, x)] + rest) == [x] + Expand(rest)
    ensures Maximal([Run(1, x)] + rest)
  {
    var runs := [Run(1, x)] + rest;
    assert runs[1..] == rest;
    assert Repeat(x, 1) == [x];
    forall i | 0 < i < |runs|
      ensures runs[i - 1].color != runs[i].color
    {
      assert runs[i] == rest[i - 1];
      if i > 1 {
        assert runs[i - 1] == rest[i - 2];
      }
    }
  }

  /** Every run colour of `RunsOf` is a pixel of the row. */
  lemma {:induction false} RunsOfColors(data: seq<bv8>)
    ensures forall i :: 0 <= i < |RunsOf(data)| ==> RunsOf(data)[i].color in data
    decreases |data|
  {
    if data != [] {
      RunsOfColors(data[1..]);
      var rest := RunsOf(data[1..]);
      var runs := RunsOf(data);
      forall i | 0 < i < |runs|
        ensures runs[i].color in data
      {
        if rest != [] && rest[0].color == data[0] {
          assert runs[i] == rest[i];
        } else {
          assert runs[i] == rest[i - 1];
        }
        assert data[1..] <= data[1..] && data == [data[0]] + data[1..];
      }
    }
  }

  /** Every maximal encoding of a row is `RunsOf` it. */
  lemma RunsOfUnique(runs: seq<Run>, data: seq<bv8>)
    requires Maximal(runs) && Expand(runs) == data
    ensures runs == RunsOf(data)
  {
    RunsOfCorrect(data);
    MaximalUnique(runs, RunsOf(data));
  }

  /** A step of `scan_line` on a pixel of the current run's colour. */
  lemma ExtendStep(done: seq<Run>, current: Run, data: seq<bv8>, i: nat)
    requires i + 1 < |data| && Expand(done + [current]) == data[..i + 1]
    requires Maximal(done) && current.count >= 1
    requires done != [] ==> done[|done| - 1].color != current.color
    requires data[i + 1] == current.color
    ensures Expand(done + [Run(current.count + 1, current.color)]) == data[..i + 2]
    ensures Maximal(done + [Run(current.count + 1, current.color)])
  {
    var grown := Run(current.count + 1, current.color);
    assert Expand(done + [grown]) == data[..i + 2] by {
      assert data[..i + 2] == data[..i + 1] + [data[i + 1]];
      GrowLast(done, current);
    }
    MaximalSnoc(done, grown);
  }

  /** A step of `scan_line` on a pixel of another colour. */
  lemma OpenStep(done: seq<Run>, current: Run, data: seq<bv8>, i: nat)
    requires i + 1 < |data| && Expand(done + [current]) == data[..i + 1]
    requires Maximal(done + [current])
    requires data[i + 1] != current.color
    ensures Expand(done + [current] + [Run(1, data[i + 1])]) == data[..i + 2]
    ensures Maximal(done + [current] + [Run(1, data[i + 1])])
  {
    assert Expand(done + [current] + [Run(1, data[i + 1])]) == data[..i + 2] by {
      assert data[..i + 2] == data[..i + 1] + [data[i + 1]];
      StartRun(done, current, data[i + 1]);
    }
    MaximalSnoc(done + [current], Run(1, data[i + 1]));
  }

  /** `scan_line`: one greedy pass from the left. The first pixel opens a run;
      each following pixel either extends the current run or opens a new one. */
  method ScanLine(data: seq<bv8>) returns (runs: seq<Run>)
    requires |data| >= 1
    ensures Expand(runs) == data
    ensures Maximal(runs)
    ensures runs[0].color == data[0]
    ensures runs == RunsOf(data)
  {
    var done: seq<Run> := [];
    var current := Run(1, data[0]);
    ExpandSingle(current);
    assert [current] == done + [current];
    var i := 0;
    while i < |data| - 1
      invariant 0 <= i <= |data| - 1
      invariant Expand(done + [current]) == data[..i + 1]
      invariant Maximal(done) && Maximal(done + [current])
      invariant done != [] ==> done[|done| - 1].color != current.color
      invariant current.count >= 1 && current.color == data[i]
    {
      var pixel := data[i + 1];
      if pixel == current.color {
        ExtendStep(done, current, data, i);
        current := Run(current.count + 1, current.color);
      } else {
        OpenStep(done, current, data, i);
        done := done + [current];
        current := Run(1, pixel);
      }
      i := i + 1;
    }
    assert data[..i + 1] == data;
    runs := done + [current];
    ExpandHead(runs);
    RunsOfUnique(runs, data);
  }
}
