/** Facts about lists of text lines, independent of what the lines say:
    concatenating equal-sized blocks, counting a line, and cutting a line
    into the parts it was joined from. */
module Lines {
  import opened Wrappers

  /** The blocks of the elements of `xs`, one after the other. */
  function Blocks<T>(xs: seq<T>, block: T -> seq<string>): seq<string>
  {
    if xs == [] then [] else Blocks(xs[..|xs| - 1], block) + block(xs[|xs| - 1])
  }

  lemma {:induction false} BlocksLength<T>(xs: seq<T>, block: T -> seq<string>, n: nat)
    requires forall x :: |block(x)| == n
    ensures |Blocks(xs, block)| == n * |xs|
  {
    if xs != [] {
      BlocksLength(xs[..|xs| - 1], block, n);
      assert n * |xs| == n * (|xs| - 1) + n;
    }
  }

  /** With blocks of `n` lines, lines `n*k` to `n*k + n` are the block of the k-th element. */
  lemma {:induction false} BlocksAt<T>(xs: seq<T>, block: T -> seq<string>, n: nat, k: nat)
    requires forall x :: |block(x)| == n
    requires k < |xs|
    ensures |Blocks(xs, block)| == n * |xs|
    ensures n * k + n <= |Blocks(xs, block)|
    ensures Blocks(xs, block)[n * k..n * k + n] == block(xs[k])
  {
    var init := xs[..|xs| - 1];
    var front, last := Blocks(init, block), block(xs[|xs| - 1]);
    BlocksLength(xs, block, n);
    BlocksLength(init, block, n);
    assert n * |xs| == n * |init| + n;
    if k < |init| {
      BlocksAt(init, block, n, k);
      assert init[k] == xs[k];
      SliceOfLeft(front, last, n * k, n * k + n);
    } else {
      assert k == |init|;
      assert (front + last)[|front|..|front| + n] == last;
    }
  }

  lemma {:induction false} BlocksAppend<T>(a: seq<T>, b: seq<T>, block: T -> seq<string>)
    ensures Blocks(a + b, block) == Blocks(a, block) + Blocks(b, block)
    decreases |b|
  {
    if b == [] {
      assert a + b == a;
    } else {
      var b' := b[..|b| - 1];
      assert (a + b)[..|a + b| - 1] == a + b';
      BlocksAppend(a, b', block);
    }
  }

  lemma SliceOfLeft<T>(a: seq<T>, b: seq<T>, i: nat, j: nat)
    requires i <= j <= |a|
    ensures (a + b)[i..j] == a[i..j]
  {
  }

  lemma SliceOfMiddle<T>(a: seq<T>, b: seq<T>, c: seq<T>, i: nat, j: nat)
    requires i <= j <= |b|
    ensures (a + b + c)[|a| + i..|a| + j] == b[i..j]
  {
    assert (a + b + c)[|a| + i..|a| + j] == (a + b)[|a| + i..|a| + j];
  }

  /** How many lines of `lines` are exactly `line`. */
  function Count(lines: seq<string>, line: string): nat
  {
    if lines == [] then 0 else Count(lines[..|lines| - 1], line) + (if lines[|lines| - 1] == line then 1 else 0)
  }

  lemma {:induction false} CountAppend(a: seq<string>, b: seq<string>, line: string)
    ensures Count(a + b, line) == Count(a, line) + Count(b, line)
    decreases |b|
  {
    if b == [] {
      assert a + b == a;
    } else {
      var b' := b[..|b| - 1];
      assert (a + b)[..|a + b| - 1] == a + b';
      CountAppend(a, b', line);
    }
  }

  lemma {:induction false} CountAbsent(lines: seq<string>, line: string)
    requires forall i :: 0 <= i < |lines| ==> lines[i] != line
    ensures Count(lines, line) == 0
  {
    if lines != [] {
      CountAbsent(lines[..|lines| - 1], line);
    }
  }

  /** When each block holds `line` exactly once, the blocks hold it once per element. */
  lemma {:induction false} BlocksCount<T>(xs: seq<T>, block: T -> seq<string>, line: string)
    requires forall x :: Count(block(x), line) == 1
    ensures Count(Blocks(xs, block), line) == |xs|
  {
    if xs != [] {
      BlocksCount(xs[..|xs| - 1], block, line);
      CountAppend(Blocks(xs[..|xs| - 1], block), block(xs[|xs| - 1]), line);
    }
  }

  /** The text between a known prefix and suffix of `line`. */
  function Between(line: string, prefix: string, suffix: string): (r: Option<string>)
    ensures r.Some? ==> line == prefix + r.value + suffix
  {
    if |line| >= |prefix| + |suffix| && line[..|prefix|] == prefix && line[|line| - |suffix|..] == suffix
    then Some(line[|prefix|..|line| - |suffix|])
    else None
  }

  lemma BetweenOfConcat(prefix: string, middle: string, suffix: string)
    ensures Between(prefix + middle + suffix, prefix, suffix) == Some(middle)
  {
    var line := prefix + middle + suffix;
    assert line[..|prefix|] == prefix;
    assert line[|line| - |suffix|..] == suffix;
    assert line[|prefix|..|line| - |suffix|] == middle;
  }

  /** Position of the first comma in `s`, or |s| if there is none. */
  function CommaIndex(s: string): (i: nat)
    ensures i <= |s|
    ensures forall j :: 0 <= j < i ==> s[j] != ','
    ensures i < |s| ==> s[i] == ','
  {
    if s == [] || s[0] == ',' then 0 else 1 + CommaIndex(s[1..])
  }

  /** Split `s` at its first comma. */
  function SplitComma(s: string): Option<(string, string)>
  {
    var i := CommaIndex(s);
    if i < |s| then Some((s[..i], s[i + 1..])) else None
  }

  lemma SplitCommaOfJoin(a: string, b: string)
    requires ',' !in a
    ensures SplitComma(a + "," + b) == Some((a, b))
  {
    var s := a + "," + b;
    assert s[|a|] == ',';
    assert forall j :: 0 <= j < |a| ==> s[j] == a[j];
    assert CommaIndex(s) == |a|;
    assert s[..|a|] == a;
    assert s[|a| + 1..] == b;
  }
}
