/** Lists of text lines: concatenating per-item groups of lines (a loop of
    `list.extend`), joining lines with newlines (`"\n".join`) and splitting
    text at newlines (`str.split("\n")`). */
module Lines {

  predicate NewlineFree(s: string)
  {
    forall k :: 0 <= k < |s| ==> s[k] != '\n'
  }

  predicate AllNewlineFree(lines: seq<string>)
  {
    forall j :: 0 <= j < |lines| ==> NewlineFree(lines[j])
  }

  lemma AppendNewlineFree(a: string, b: string)
    requires NewlineFree(a) && NewlineFree(b)
    ensures NewlineFree(a + b)
  {
    forall k | 0 <= k < |a + b|
      ensures (a + b)[k] != '\n'
    {
      if k >= |a| {
        assert (a + b)[k] == b[k - |a|];
      }
    }
  }

  /** The concatenation of `parts`, in order: a line assembled from fixed
      labels and field values. */
  function Concat(parts: seq<string>): string
    decreases |parts|
  {
    if parts == [] then "" else Concat(parts[..|parts| - 1]) + parts[|parts| - 1]
  }

  lemma ConcatTwo(a: string, b: string)
    ensures Concat([a, b]) == a + b
  {
    assert [a, b][..1] == [a];
    assert [a][..0] == [];
    assert Concat([a]) == "" + a == a;
  }

  lemma ConcatFive(a: string, b: string, c: string, d: string, e: string)
    ensures Concat([a, b, c, d, e]) == a + b + c + d + e
  {
    ConcatTwo(a, b);
    assert [a, b, c][..2] == [a, b];
    assert Concat([a, b, c]) == a + b + c;
    assert [a, b, c, d][..3] == [a, b, c];
    assert Concat([a, b, c, d]) == a + b + c + d;
    assert [a, b, c, d, e][..4] == [a, b, c, d];
  }

  /** Newline-free parts make a newline-free line. */
  lemma {:induction false} ConcatNewlineFree(parts: seq<string>)
    requires AllNewlineFree(parts)
    ensures NewlineFree(Concat(parts))
    decreases |parts|
  {
    if parts != [] {
      var n := |parts| - 1;
      assert forall j :: 0 <= j < n ==> parts[..n][j] == parts[j];
      ConcatNewlineFree(parts[..n]);
      AppendNewlineFree(Concat(parts[..n]), parts[n]);
    }
  }

  /** The lines `render` gives each item, item after item. */
  function Flatten<T>(items: seq<T>, render: T -> seq<string>): seq<string>
    decreases |items|
  {
    if items == [] then [] else Flatten(items[..|items| - 1], render) + render(items[|items| - 1])
  }

  /** Groups of `width` lines each make `width * |items|` lines. */
  lemma {:induction false} FlattenLength<T>(items: seq<T>, render: T -> seq<string>, width: nat)
    requires forall x :: |render(x)| == width
    ensures |Flatten(items, render)| == width * |items|
    decreases |items|
  {
    if items != [] {
      var n := |items| - 1;
      FlattenLength(items[..n], render, width);
      assert width * |items| == width * n + width;
    }
  }

  /** With groups of `width` lines, the i-th group sits at `width * i`. */
  lemma {:induction false} FlattenAt<T>(items: seq<T>, render: T -> seq<string>, width: nat, i: int)
    requires forall x :: |render(x)| == width
    requires 0 <= i < |items|
    ensures |Flatten(items, render)| == width * |items|
    ensures Flatten(items, render)[width * i..width * i + width] == render(items[i])
    decreases |items|
  {
    var n := |items| - 1;
    var prefix := items[..n];
    FlattenLength(items, render, width);
    FlattenLength(prefix, render, width);
    var lo := width * i;
    if i < n {
      FlattenAt(prefix, render, width, i);
      MulMonotone(width, i + 1, n);
      SliceOfConcat(Flatten(prefix, render), render(items[n]), lo, lo + width);
    } else {
      SliceOfConcat(Flatten(prefix, render), render(items[n]), lo, lo + width);
    }
  }

  /** With groups of `width` lines, line k of the i-th group is line `width * i + k`. */
  lemma FlattenLineAt<T>(items: seq<T>, render: T -> seq<string>, width: nat, i: int, k: int)
    requires forall x :: |render(x)| == width
    requires 0 <= i < |items| && 0 <= k < width
    ensures width * i + k < |Flatten(items, render)| == width * |items|
    ensures Flatten(items, render)[width * i + k] == render(items[i])[k]
  {
    FlattenAt(items, render, width, i);
    MulMonotone(width, i + 1, |items|);
    var body := Flatten(items, render);
    assert body[width * i..width * i + width][k] == body[width * i + k];
  }

  /** Between a fixed head and tail, line k of the i-th group sits at
      `|head| + j`, where `j == width * i + k`. */
  lemma FramedLineAt<T>(head: seq<string>, items: seq<T>, render: T -> seq<string>, tail: seq<string>,
                        width: nat, i: int, k: int, j: int)
    requires forall x :: |render(x)| == width
    requires 0 <= i < |items| && 0 <= k < width && j == width * i + k
    ensures 0 <= j < |Flatten(items, render)|
    ensures (head + Flatten(items, render) + tail)[|head| + j] == render(items[i])[k]
  {
    FlattenLineAt(items, render, width, i, k);
    IndexInMiddle(head, Flatten(items, render), tail, j);
  }

  lemma IndexInMiddle<T>(head: seq<T>, body: seq<T>, tail: seq<T>, j: int)
    requires 0 <= j < |body|
    ensures (head + body + tail)[|head| + j] == body[j]
  {
  }

  lemma MulMonotone(w: nat, a: nat, b: nat)
    requires a <= b
    ensures w * a <= w * b && w * (a - 1) + w == w * a
  {
  }

  /** A slice of a concatenation that lies within one operand. */
  lemma SliceOfConcat<T>(a: seq<T>, b: seq<T>, lo: int, hi: int)
    requires 0 <= lo <= hi <= |a| + |b|
    ensures hi <= |a| ==> (a + b)[lo..hi] == a[lo..hi]
    ensures lo == |a| && hi == |a| + |b| ==> (a + b)[lo..hi] == b
  {
  }

  /** Groups of newline-free lines flatten to newline-free lines. */
  lemma {:induction false} FlattenNewlineFree<T>(items: seq<T>, render: T -> seq<string>)
    requires forall i :: 0 <= i < |items| ==> AllNewlineFree(render(items[i]))
    ensures AllNewlineFree(Flatten(items, render))
    decreases |items|
  {
    if items != [] {
      var n := |items| - 1;
      var prefix := items[..n];
      assert forall i :: 0 <= i < n ==> prefix[i] == items[i];
      FlattenNewlineFree(prefix, render);
      var front := Flatten(prefix, render);
      var last := render(items[n]);
      assert AllNewlineFree(last);
      forall j | 0 <= j < |front + last|
        ensures NewlineFree((front + last)[j])
      {
        if j >= |front| {
          assert (front + last)[j] == last[j - |front|];
        }
      }
    }
  }

  /** `"\n".join(lines)`. */
  function JoinLines(lines: seq<string>): string
    decreases |lines|
  {
    if |lines| == 0 then ""
    else if |lines| == 1 then lines[0]
    else lines[0] + "\n" + JoinLines(lines[1..])
  }

  /** The position of the first newline of `s`, or `|s|` when there is none. */
  function FirstNewline(s: string): (k: nat)
    ensures k <= |s|
    ensures k < |s| ==> s[k] == '\n'
    ensures NewlineFree(s[..k])
    decreases |s|
  {
    if s == [] || s[0] == '\n' then 0
    else
      var k := 1 + FirstNewline(s[1..]);
      assert s[..k] == [s[0]] + s[1..][..k - 1];
      k
  }

  /** `text.split("\n")`. */
  function SplitLines(text: string): (lines: seq<string>)
    ensures |lines| > 0
    decreases |text|
  {
    var k := FirstNewline(text);
    if k == |text| then [text] else [text[..k]] + SplitLines(text[k + 1..])
  }

  lemma NoNewlineFirstNewline(s: string)
    requires NewlineFree(s)
    ensures FirstNewline(s) == |s|
  {
  }

  /** A newline with none before it is the first newline. */
  lemma FirstNewlineAt(s: string, k: int)
    requires 0 <= k < |s| && s[k] == '\n' && NewlineFree(s[..k])
    ensures FirstNewline(s) == k
  {
    var m := FirstNewline(s);
    assert forall j :: 0 <= j < m ==> s[..m][j] == s[j];
    assert forall j :: 0 <= j < k ==> s[..k][j] == s[j];
  }

  /** Splitting joined newline-free lines gives the lines back. */
  lemma {:induction false} SplitJoinRoundTrip(lines: seq<string>)
    requires |lines| > 0 && AllNewlineFree(lines)
    ensures SplitLines(JoinLines(lines)) == lines
    decreases |lines|
  {
    var head := lines[0];
    if |lines| == 1 {
      NoNewlineFirstNewline(head);
    } else {
      var rest := lines[1..];
      var text := JoinLines(lines);
      assert text == head + "\n" + JoinLines(rest);
      assert text[..|head|] == head;
      FirstNewlineAt(text, |head|);
      assert text[|head| + 1..] == JoinLines(rest);
      SplitJoinRoundTrip(rest);
    }
  }
}
