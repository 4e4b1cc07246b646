/**
 * Properties of the wikilink scanner of obyde/util.py, stated on the reference
 * definition `Util.ScanFrom` (which `Util.ParseObsidianLinks` computes): what a
 * single stretch of input does to the scan, when the scan raises, and the
 * well-formedness of everything it returns.
 */
module LinksFacts {
  import opened Wrappers
  import opened Util

  /** Positions `i` to `j` of `content` all hold `c`. */
  predicate Filled(content: string, i: nat, j: nat, c: char)
    requires i <= j <= |content|
  {
    forall k :: i <= k < j ==> content[k] == c
  }

  /** `content` holds a maximal run of exactly `n` copies of `c` at `i`. */
  predicate MaximalRun(content: string, i: nat, n: nat, c: char) {
    i + n <= |content| && Filled(content, i, i + n, c) && (i + n == |content| || content[i + n] != c)
  }

  /** A maximal run of `n` copies of `c` is what `_substr_cond` measures for the condition `c`. */
  lemma RunOfChar(content: string, i: nat, n: nat, c: char, cond: (nat, char) -> bool)
    requires MaximalRun(content, i, n, c) && i < |content|
    requires forall k, d :: cond(k, d) <==> d == c
    ensures |Run(content, i, cond)| == n
  {
    assert IsLongestRun(content, i, cond, content[i..i + n]);
    LongestRunIsRun(content, i, cond, content[i..i + n]);
  }

  /** The same run, as the slice of `content` it is. */
  lemma RunOfCharIsSlice(content: string, i: nat, n: nat, c: char, cond: (nat, char) -> bool)
    requires MaximalRun(content, i, n, c) && i < |content|
    requires forall k, d :: cond(k, d) <==> d == c
    ensures Run(content, i, cond) == content[i..i + n]
  {
    assert IsLongestRun(content, i, cond, content[i..i + n]);
    LongestRunIsRun(content, i, cond, content[i..i + n]);
  }

  /** A slice whose characters all meet `cond` and that cannot be extended is the run `_substr_cond` measures. */
  lemma SliceIsRun(content: string, i: nat, j: nat, cond: (nat, char) -> bool)
    requires i < j <= |content|
    requires forall k :: i <= k < j ==> cond(k - i, content[k])
    requires j == |content| || !cond(j - i, content[j])
    ensures Run(content, i, cond) == content[i..j]
  {
    assert IsLongestRun(content, i, cond, content[i..j]);
    LongestRunIsRun(content, i, cond, content[i..j]);
  }

  /** Outside a fence, text without `[` or backticks is passed over one character at a time. */
  lemma {:induction false} PlainTextSkipped(content: string, cur: Cursor, j: nat)
    requires cur.fence == Open && cur.idx <= j <= |content|
    requires forall k :: cur.idx <= k < j ==> content[k] != '[' && content[k] != '`'
    ensures ScanFrom(content, cur) == ScanFrom(content, Cursor(j, Open, cur.quotemult))
    decreases j - cur.idx
  {
    if cur.idx < j {
      var next := Cursor(cur.idx + 1, Open, cur.quotemult);
      assert Step(content, cur) == Success(Advance(next, None));
      ScanStep(content, cur);
      PlainTextSkipped(content, next, j);
    }
  }

  /** Without a `[` from `cur.idx` on, the scan neither raises nor reports anything. */
  lemma {:induction false} NoBracketNoLinks(content: string, cur: Cursor)
    requires forall k :: cur.idx <= k < |content| ==> content[k] != '['
    ensures ScanFrom(content, cur) == Success([])
    decreases |content| - cur.idx
  {
    if cur.idx < |content| {
      var r := Step(content, cur);
      assert r.Success? && r.value.link == None;
      ScanStep(content, cur);
      NoBracketNoLinks(content, r.value.next);
    }
  }

  /** Content without any `[` has no links. */
  lemma NoBracketContentHasNoLinks(content: string)
    requires '[' !in content
    ensures Links(content) == Success([])
  {
    assert forall k :: 0 <= k < |content| ==> content[k] != '[' by {
      forall k | 0 <= k < |content| ensures content[k] != '[' {
        assert content[k] in content;
      }
    }
    NoBracketNoLinks(content, Cursor(0, Open, 0));
    var none: seq<string> := [];
    assert Texts([]) == none && none + none == none;
  }

  /**
   * Inside a fence, everything up to the next backtick (brackets included) is passed
   * over one character at a time, and the fence is then in its `code` state.
   */
  lemma {:induction false} FenceSkipped(content: string, cur: Cursor, j: nat)
    requires cur.fence != Open && cur.idx < j <= |content|
    requires forall k :: cur.idx <= k < j ==> content[k] != '`'
    ensures ScanFrom(content, cur) == ScanFrom(content, Cursor(j, Code, cur.quotemult))
    decreases j - cur.idx
  {
    var next := Cursor(cur.idx + 1, Code, cur.quotemult);
    assert Step(content, cur) == Success(Advance(next, None));
    ScanStep(content, cur);
    if cur.idx + 1 < j {
      FenceSkipped(content, next, j);
    }
  }

  /** Inside a fence, a remainder without any backtick yields no more links and does not raise. */
  lemma TicklessFenceRemainder(content: string, cur: Cursor)
    requires cur.fence != Open
    requires forall k :: cur.idx <= k < |content| ==> content[k] != '`'
    ensures ScanFrom(content, cur) == Success([])
  {
    if cur.idx < |content| {
      FenceSkipped(content, cur, |content|);
    }
  }

  /** `q` backticks start at position `k`. */
  predicate TicksAt(content: string, k: nat, q: nat) {
    k + q <= |content| && forall d :: k <= d < k + q ==> content[d] == '`'
  }

  /** No run of `q` backticks starts at or after `start`: nothing there can close a fence of length `q`. */
  ghost predicate NoClosingRun(content: string, start: nat, q: nat) {
    forall k: nat :: start <= k ==> !TicksAt(content, k, q)
  }

  /** A tick run at a position where `q` ticks do not start is shorter than `q`. */
  lemma TickRunShort(content: string, idx: nat, q: nat)
    requires idx < |content| && !TicksAt(content, idx, q)
    ensures |Run(content, idx, IsTick)| < q
  {
    var r := Run(content, idx, IsTick);
    if |r| >= q {
      assert forall d :: idx <= d < idx + q ==> content[d] == r[d - idx] == '`';
      assert TicksAt(content, idx, q);
    }
  }

  /**
   * A fence that is never closed yields no more links and does not raise,
   * whatever shorter tick runs and brackets it holds.
   */
  lemma {:induction false} UnterminatedFence(content: string, cur: Cursor)
    requires cur.fence != Open && cur.quotemult >= 1
    requires NoClosingRun(content, cur.idx, cur.quotemult)
    ensures ScanFrom(content, cur) == Success([])
    decreases |content| - cur.idx
  {
    if cur.idx < |content| {
      var q := cur.quotemult;
      var next: Cursor;
      if content[cur.idx] == '`' && cur.fence == Code {
        TickRunShort(content, cur.idx, q);
        var ltick := |Run(content, cur.idx, IsTick)|;
        next := Cursor(cur.idx + ltick, Code, q);
      } else if content[cur.idx] == '`' {
        next := Cursor(cur.idx + 1, CodeStart, q);
      } else {
        next := Cursor(cur.idx + 1, Code, q);
      }
      assert Step(content, cur) == Success(Advance(next, None));
      ScanStep(content, cur);
      assert NoClosingRun(content, next.idx, q);
      UnterminatedFence(content, next);
    }
  }

  /** Outside a fence, a run of `n` backticks opens a fence of length `n`. */
  lemma TickRunOpens(content: string, cur: Cursor, n: nat)
    requires cur.fence == Open && cur.idx < |content| && MaximalRun(content, cur.idx, n, '`') && n >= 1
    ensures ScanFrom(content, cur) == ScanFrom(content, Cursor(cur.idx + n, CodeStart, n))
  {
    RunOfChar(content, cur.idx, n, '`', IsTick);
    assert Step(content, cur) == Success(Advance(Cursor(cur.idx + n, CodeStart, n), None));
    ScanStep(content, cur);
  }

  /** Inside a fence, a backtick run shorter than the fence is passed over whole. */
  lemma ShortTickRunSkipped(content: string, cur: Cursor, n: nat)
    requires cur.fence == Code && cur.idx < |content| && MaximalRun(content, cur.idx, n, '`') && n >= 1
    requires n < cur.quotemult
    ensures ScanFrom(content, cur) == ScanFrom(content, Cursor(cur.idx + n, Code, cur.quotemult))
  {
    RunOfChar(content, cur.idx, n, '`', IsTick);
    assert Step(content, cur) == Success(Advance(Cursor(cur.idx + n, Code, cur.quotemult), None));
    ScanStep(content, cur);
  }

  /**
   * Inside a fence, a backtick run at least as long as the fence closes it and
   * advances exactly one position: `quotemult` is reset before the increment is
   * computed, so the remaining backticks of the run are scanned again outside the fence.
   */
  lemma FenceCloseAdvancesOne(content: string, cur: Cursor, n: nat)
    requires cur.fence == Code && cur.idx < |content| && MaximalRun(content, cur.idx, n, '`') && n >= 1
    requires n >= cur.quotemult
    ensures ScanFrom(content, cur) == ScanFrom(content, Cursor(cur.idx + 1, Open, 0))
  {
    RunOfChar(content, cur.idx, n, '`', IsTick);
    assert Step(content, cur) == Success(Advance(Cursor(cur.idx + 1, Open, 0), None));
    ScanStep(content, cur);
  }

  /** The `[` run at `cur.idx` has `n >= 2` characters and sits outside a fence. */
  predicate OpensLink(content: string, cur: Cursor, n: nat) {
    cur.fence == Open && cur.idx < |content| && n >= 2 && MaximalRun(content, cur.idx, n, '[')
  }

  /** Outside a fence, a `[` starts the link branch of the loop body. */
  lemma StepAtBracket(content: string, cur: Cursor)
    requires cur.fence == Open && cur.idx < |content| && content[cur.idx] == '['
    ensures Step(content, cur) == LinkStep(content, cur)
  {
  }

  /**
   * Outside a fence, a `[` run `content[cur.idx..j]` of two or more characters
   * followed by an empty body, or by a body `content[j..k]` with no `]` run
   * after it, raises with the index of the first `[`.
   */
  lemma OpenRunRaises(content: string, cur: Cursor, j: nat, k: nat)
    requires cur.fence == Open && cur.idx + 2 <= j <= k <= |content| && content[cur.idx] == '['
    requires Run(content, cur.idx, IsOpenBracket) == content[cur.idx..j]
    requires Run(content, j, IsNotCloseBracket) == content[j..k]
    requires k == j || Run(content, k, IsCloseBracket) == ""
    ensures ScanFrom(content, cur) == Failure(EofInLink(cur.idx))
  {
    var o, u := content[cur.idx..j], content[j..k];
    assert |o| == j - cur.idx && |u| == k - j;
    LinkStepOfRuns(content, cur, o, u, Run(content, k, IsCloseBracket));
    StepAtBracket(content, cur);
    assert Step(content, cur) == Failure(EofInLink(cur.idx));
    ScanStep(content, cur);
  }

  /** A `[[` run followed by `]` or by the end of the content raises. */
  lemma EmptyBodyRaises(content: string, cur: Cursor, n: nat)
    requires OpensLink(content, cur, n)
    requires cur.idx + n == |content| || content[cur.idx + n] == ']'
    ensures ScanFrom(content, cur) == Failure(EofInLink(cur.idx))
  {
    OpenRunIsSlice(content, cur.idx, n);
    LongestRunIsRun(content, cur.idx + n, IsNotCloseBracket, "");
    OpenRunRaises(content, cur, cur.idx + n, cur.idx + n);
  }

  /** A `[[` run whose body runs to the end of the content without a `]` raises. */
  lemma UnclosedBodyRaises(content: string, cur: Cursor, n: nat)
    requires OpensLink(content, cur, n) && cur.idx + n < |content|
    requires forall k :: cur.idx + n <= k < |content| ==> content[k] != ']'
    ensures ScanFrom(content, cur) == Failure(EofInLink(cur.idx))
  {
    OpenRunIsSlice(content, cur.idx, n);
    SliceIsRun(content, cur.idx + n, |content|, IsNotCloseBracket);
    assert Run(content, |content|, IsCloseBracket) == "";
    OpenRunRaises(content, cur, cur.idx + n, |content|);
  }

  /** The body of `m >= 1` characters other than `]` after the `[` run is closed by a run of `e` `]`. */
  predicate ClosedBody(content: string, cur: Cursor, n: nat, m: nat, e: nat) {
    var b := cur.idx + n;
    m >= 1 && b + m <= |content| &&
    (forall k :: b <= k < b + m ==> content[k] != ']') &&
    MaximalRun(content, b + m, e, ']') && e >= 1
  }

  /** The three runs the link branch measures at `cur.idx` are the slices of lengths `n`, `m` and `e` there. */
  predicate RunsAre(content: string, cur: Cursor, n: nat, m: nat, e: nat)
    requires cur.idx + n + m + e <= |content|
  {
    var b := cur.idx + n;
    Run(content, cur.idx, IsOpenBracket) == content[cur.idx..b] &&
    Run(content, b, IsNotCloseBracket) == content[b..b + m] &&
    Run(content, b + m, IsCloseBracket) == content[b + m..b + m + e]
  }

  /** A maximal `[` run is the opening run the link branch measures. */
  lemma OpenRunIsSlice(content: string, i: nat, n: nat)
    requires MaximalRun(content, i, n, '[') && n >= 1
    ensures Run(content, i, IsOpenBracket) == content[i..i + n]
  {
    RunOfCharIsSlice(content, i, n, '[', IsOpenBracket);
  }

  /** A stretch free of `]` that a `]` ends is the body the link branch measures. */
  lemma BodyRunIsSlice(content: string, j: nat, m: nat)
    requires m >= 1 && j + m < |content| && content[j + m] == ']'
    requires forall k :: j <= k < j + m ==> content[k] != ']'
    ensures Run(content, j, IsNotCloseBracket) == content[j..j + m]
  {
    SliceIsRun(content, j, j + m, IsNotCloseBracket);
  }

  /** A maximal `]` run is the closing run the link branch measures. */
  lemma CloseRunIsSlice(content: string, k: nat, e: nat)
    requires MaximalRun(content, k, e, ']') && e >= 1
    ensures Run(content, k, IsCloseBracket) == content[k..k + e]
  {
    RunOfCharIsSlice(content, k, e, ']', IsCloseBracket);
  }

  /** The three runs of a closed bracket construct, as `LinkStep` measures them. */
  lemma LinkRuns(content: string, cur: Cursor, n: nat, m: nat, e: nat)
    requires OpensLink(content, cur, n) && ClosedBody(content, cur, n, m, e)
    ensures cur.idx + n + m + e <= |content| && RunsAre(content, cur, n, m, e)
  {
    var b := cur.idx + n;
    OpenRunIsSlice(content, cur.idx, n);
    BodyRunIsSlice(content, b, m);
    CloseRunIsSlice(content, b + m, e);
  }

  /** The link branch decides on the three runs it measures, whatever they are. */
  lemma LinkStepOfRuns(content: string, cur: Cursor, o: string, u: string, c: string)
    requires cur.idx < |content| && content[cur.idx] == '['
    requires Run(content, cur.idx, IsOpenBracket) == o
    requires Run(content, cur.idx + |o|, IsNotCloseBracket) == u
    requires Run(content, cur.idx + |o| + |u|, IsCloseBracket) == c
    ensures LinkStep(content, cur) == LinkOutcome(cur, o, u, c)
  {
  }

  /** What the link branch does once the `[` run has two or more characters and the other runs are non-empty. */
  lemma OutcomeOfClosed(cur: Cursor, o: string, u: string, c: string)
    requires |o| >= 2 && u != "" && c != ""
    ensures LinkOutcome(cur, o, u, c) ==
      Success(Advance(Cursor(cur.idx + |o| + |u| + |c|, cur.fence, cur.quotemult), if |c| >= 2 then Some(Span(cur.idx, o, u, c)) else None))
  {
  }

  /** Outside a fence, runs of `n >= 2` `[`, `m >= 1` body characters and `e >= 1` `]` close a construct. */
  lemma ClosedStep(content: string, cur: Cursor, n: nat, m: nat, e: nat)
    requires cur.fence == Open && cur.idx < |content| && content[cur.idx] == '['
    requires n >= 2 && m >= 1 && e >= 1 && cur.idx + n + m + e <= |content|
    requires RunsAre(content, cur, n, m, e)
    ensures var b := cur.idx + n;
      Step(content, cur) == Success(Advance(Cursor(b + m + e, Open, cur.quotemult),
        if e >= 2 then Some(Span(cur.idx, content[cur.idx..b], content[b..b + m], content[b + m..b + m + e])) else None))
  {
    ClosedSlicesStep(content, cur, cur.idx + n, cur.idx + n + m, cur.idx + n + m + e);
  }

  /** The same, stated on the positions `j`, `k` and `l` where the three runs end. */
  lemma ClosedSlicesStep(content: string, cur: Cursor, j: nat, k: nat, l: nat)
    requires cur.fence == Open && cur.idx + 2 <= j < k < l <= |content| && content[cur.idx] == '['
    requires Run(content, cur.idx, IsOpenBracket) == content[cur.idx..j]
    requires Run(content, j, IsNotCloseBracket) == content[j..k]
    requires Run(content, k, IsCloseBracket) == content[k..l]
    ensures Step(content, cur) == Success(Advance(Cursor(l, Open, cur.quotemult),
      if l >= k + 2 then Some(Span(cur.idx, content[cur.idx..j], content[j..k], content[k..l])) else None))
  {
    var o, u, c := content[cur.idx..j], content[j..k], content[k..l];
    assert |o| == j - cur.idx && |u| == k - j && |c| == l - k;
    LinkStepOfRuns(content, cur, o, u, c);
    StepAtBracket(content, cur);
    OutcomeOfClosed(cur, o, u, c);
  }

  /** A body closed by a single `]` is dropped without error; the scan resumes after the `]`. */
  lemma SingleCloseDiscarded(content: string, cur: Cursor, n: nat, m: nat)
    requires OpensLink(content, cur, n) && ClosedBody(content, cur, n, m, 1)
    ensures Step(content, cur) == Success(Advance(Cursor(cur.idx + n + m + 1, Open, cur.quotemult), None))
  {
    LinkRuns(content, cur, n, m, 1);
    ClosedStep(content, cur, n, m, 1);
  }

  /** A body closed by two or more `]` is reported as a link, and the scan resumes after it. */
  lemma WikilinkReported(content: string, cur: Cursor, n: nat, m: nat, e: nat)
    requires OpensLink(content, cur, n) && ClosedBody(content, cur, n, m, e) && e >= 2
    ensures var b := cur.idx + n;
      Step(content, cur) == Success(Advance(Cursor(b + m + e, Open, cur.quotemult),
        Some(Span(cur.idx, content[cur.idx..b], content[b..b + m], content[b + m..b + m + e]))))
  {
    LinkRuns(content, cur, n, m, e);
    ClosedStep(content, cur, n, m, e);
  }

  /**
   * Everything parse_obsidian_links returns is a well-formed wikilink, found in
   * `content` where its span says, and the spans are in left-to-right order
   * without overlapping.
   */
  lemma LinksAreWikilinks(content: string)
    ensures LinkSpans(content).Success? ==>
      WellPlaced(content, LinkSpans(content).value, 0) &&
      Links(content) == Success(Texts(LinkSpans(content).value))
  {
    ScanFromWellPlaced(content, Cursor(0, Open, 0));
    if LinkSpans(content).Success? {
      assert [] + Texts(LinkSpans(content).value) == Texts(LinkSpans(content).value);
    }
  }

  // ---------------------------------------------------------------------------
  // Worked inputs
  // ---------------------------------------------------------------------------

  /** A scan that reports the one span `sp` returns its text. */
  lemma ReportedTexts(sp: Span, t: string)
    requires sp.Text() == t
    ensures Prepend([], Success([sp])) == Success([t])
  {
    var none: seq<string> := [];
    assert [sp][1..] == [];
    assert Texts([sp]) == [t];
    assert none + [t] == [t];
  }

  /** A `[[` immediately followed by `]` raises. */
  lemma EmptyLinkRaises(c: string)
    requires c == "[[]]"
    ensures Links(c) == Failure(EofInLink(0))
  {
    EmptyBodyRaises(c, Cursor(0, Open, 0), 2);
  }

  /** A body that reaches the end of the content without `]` raises, at the index of its `[[`. */
  lemma UnclosedLinkRaises(c: string)
    requires c == "text [[A"
    ensures Links(c) == Failure(EofInLink(5))
  {
    PlainTextSkipped(c, Cursor(0, Open, 0), 5);
    UnclosedBodyRaises(c, Cursor(5, Open, 0), 2);
  }

  /** `[[A]` is closed by a single `]`: dropped, no error, nothing reported. */
  lemma SingleCloseExample(c: string)
    requires c == "[[A] b"
    ensures Links(c) == Success([])
  {
    assert |c| == 6 && c[0] == '[' && c[1] == '[' && c[2] == 'A' && c[3] == ']' && c[4] == ' ' && c[5] == 'b';
    assert ScanFrom(c, Cursor(0, Open, 0)) == ScanFrom(c, Cursor(4, Open, 0)) by {
      SingleCloseDiscarded(c, Cursor(0, Open, 0), 2, 1);
      ScanStep(c, Cursor(0, Open, 0));
    }
    NoBracketNoLinks(c, Cursor(4, Open, 0));
    var none: seq<string> := [];
    assert Texts([]) == none && none + none == none;
  }

  /** A link inside a backtick fence is not reported. */
  lemma FencedLinkHidden(c: string)
    requires c == "`[[Hidden]]`"
    ensures Links(c) == Success([])
  {
    TickRunOpens(c, Cursor(0, Open, 0), 1);
    FenceSkipped(c, Cursor(1, CodeStart, 1), 11);
    FenceCloseAdvancesOne(c, Cursor(11, Code, 1), 1);
    var none: seq<string> := [];
    assert Texts([]) == none && none + none == none;
  }

  /** The span of `[[T|D]]` at the start of `[[T|D]] x` is the only one. */
  lemma DisplayLinkSpan(c: string)
    requires c == "[[T|D]] x"
    ensures LinkSpans(c) == Success([Span(0, c[0..2], c[2..5], c[5..7])])
  {
    assert |c| == 9 && c[0] == '[' && c[1] == '[' && c[2] == 'T' && c[3] == '|' && c[4] == 'D' && c[5] == ']' && c[6] == ']' && c[7] == ' ' && c[8] == 'x';
    var sp := Span(0, c[0..2], c[2..5], c[5..7]);
    assert ScanFrom(c, Cursor(0, Open, 0)) == Push(Some(sp), ScanFrom(c, Cursor(7, Open, 0))) by {
      WikilinkReported(c, Cursor(0, Open, 0), 2, 3, 2);
      ScanStep(c, Cursor(0, Open, 0));
    }
    NoBracketNoLinks(c, Cursor(7, Open, 0));
    assert [sp] + [] == [sp];
  }

  /** A link with a display text is reported whole, brackets and `|` included. */
  lemma DisplayLinkExample(c: string)
    requires c == "[[T|D]] x"
    ensures Links(c) == Success(["[[T|D]]"])
  {
    DisplayLinkSpan(c);
    var sp := Span(0, c[0..2], c[2..5], c[5..7]);
    assert sp.Text() == c[..7];
    ReportedTexts(sp, "[[T|D]]");
  }

  /** The one-tick code span `` `a` `` is opened, passed over and closed. */
  lemma CodeSpanPassed(c: string)
    requires |c| >= 3 && c[0] == '`' && c[1] == 'a' && c[2] == '`' && (|c| == 3 || c[3] != '`')
    ensures ScanFrom(c, Cursor(0, Open, 0)) == ScanFrom(c, Cursor(3, Open, 0))
  {
    assert ScanFrom(c, Cursor(0, Open, 0)) == ScanFrom(c, Cursor(1, CodeStart, 1)) by {
      assert MaximalRun(c, 0, 1, '`');
      TickRunOpens(c, Cursor(0, Open, 0), 1);
    }
    assert ScanFrom(c, Cursor(1, CodeStart, 1)) == ScanFrom(c, Cursor(2, Code, 1)) by {
      FenceSkipped(c, Cursor(1, CodeStart, 1), 2);
    }
    assert ScanFrom(c, Cursor(2, Code, 1)) == ScanFrom(c, Cursor(3, Open, 0)) by {
      assert MaximalRun(c, 2, 1, '`');
      FenceCloseAdvancesOne(c, Cursor(2, Code, 1), 1);
    }
  }

  /** In `` `a`[[X]] ``, the scan from index 3 reports the one span of `[[X]]`. */
  lemma LinkAtThree(c: string)
    requires c == "`a`[[X]]"
    ensures ScanFrom(c, Cursor(3, Open, 0)) == Success([Span(3, "[[", "X", "]]")])
  {
    assert |c| == 8 && c[3] == '[' && c[4] == '[' && c[5] == 'X' && c[6] == ']' && c[7] == ']';
    WikilinkReported(c, Cursor(3, Open, 0), 2, 1, 2);
    ScanStep(c, Cursor(3, Open, 0));
    assert ScanFrom(c, Cursor(8, Open, 0)) == Success([]);
    var sp := Span(3, c[3..5], c[5..6], c[6..8]);
    assert [sp] + [] == [sp];
    assert c[3..5] == "[[" && c[5..6] == "X" && c[6..8] == "]]";
  }

  /**
   * After the one-tick code span `` `a` `` the fence is closed and the following
   * link is reported.
   */
  lemma LinkAfterCodeSpan(c: string)
    requires c == "`a`[[X]]"
    ensures Links(c) == Success(["[[X]]"])
  {
    assert ScanFrom(c, Cursor(0, Open, 0)) == ScanFrom(c, Cursor(3, Open, 0)) by {
      assert |c| == 8 && c[0] == '`' && c[1] == 'a' && c[2] == '`' && c[3] == '[';
      CodeSpanPassed(c);
    }
    assert Prepend([], ScanFrom(c, Cursor(3, Open, 0))) == Success(["[[X]]"]) by {
      LinkAtThree(c);
      var sp := Span(3, "[[", "X", "]]");
      assert sp.Text() == "[[X]]";
      ReportedTexts(sp, "[[X]]");
    }
  }

  /** A two-tick fence opened and closed at once by ``` ``a`` ```: the close leaves the scan at index 4. */
  lemma DoubleTickSpanCloses(c: string)
    requires c == "``a``[[X]]"
    ensures ScanFrom(c, Cursor(0, Open, 0)) == ScanFrom(c, Cursor(4, Open, 0))
  {
    assert |c| == 10 && c[0] == '`' && c[1] == '`' && c[2] == 'a' && c[3] == '`' && c[4] == '`' && c[5] == '[';
    assert ScanFrom(c, Cursor(0, Open, 0)) == ScanFrom(c, Cursor(2, CodeStart, 2)) by {
      assert MaximalRun(c, 0, 2, '`');
      TickRunOpens(c, Cursor(0, Open, 0), 2);
    }
    assert ScanFrom(c, Cursor(2, CodeStart, 2)) == ScanFrom(c, Cursor(3, Code, 2)) by {
      FenceSkipped(c, Cursor(2, CodeStart, 2), 3);
    }
    assert ScanFrom(c, Cursor(3, Code, 2)) == ScanFrom(c, Cursor(4, Open, 0)) by {
      assert MaximalRun(c, 3, 2, '`');
      FenceCloseAdvancesOne(c, Cursor(3, Code, 2), 2);
    }
  }

  /**
   * After the two-tick code span ``` ``a`` ``` the close advances one position, so
   * its second backtick opens a new fence that hides the following link.
   */
  lemma LinkAfterDoubleTickSpanHidden(c: string)
    requires c == "``a``[[X]]"
    ensures Links(c) == Success([])
  {
    DoubleTickSpanCloses(c);
    assert |c| == 10 && c[4] == '`' && c[5] == '[';
    assert forall k :: 5 <= k < |c| ==> c[k] != '`';
    TickRunOpens(c, Cursor(4, Open, 0), 1);
    TicklessFenceRemainder(c, Cursor(5, CodeStart, 1));
    var none: seq<string> := [];
    assert Texts([]) == none && none + none == none;
  }

  /** In ``` ``a`[[X]]`` ```, the single tick at index 3 leaves the two-tick fence open. */
  lemma ShortRunKeepsFence(c: string)
    requires c == "``a`[[X]]``"
    ensures ScanFrom(c, Cursor(0, Open, 0)) == ScanFrom(c, Cursor(4, Code, 2))
  {
    assert |c| == 11 && c[0] == '`' && c[1] == '`' && c[2] == 'a' && c[3] == '`' && c[4] == '[';
    assert ScanFrom(c, Cursor(0, Open, 0)) == ScanFrom(c, Cursor(2, CodeStart, 2)) by {
      assert MaximalRun(c, 0, 2, '`');
      TickRunOpens(c, Cursor(0, Open, 0), 2);
    }
    assert ScanFrom(c, Cursor(2, CodeStart, 2)) == ScanFrom(c, Cursor(3, Code, 2)) by {
      FenceSkipped(c, Cursor(2, CodeStart, 2), 3);
    }
    assert ScanFrom(c, Cursor(3, Code, 2)) == ScanFrom(c, Cursor(4, Code, 2)) by {
      assert MaximalRun(c, 3, 1, '`');
      ShortTickRunSkipped(c, Cursor(3, Code, 2), 1);
    }
  }

  /** Inside a two-tick fence a single backtick does not close it. */
  lemma ShortRunInsideFence(c: string)
    requires c == "``a`[[X]]``"
    ensures Links(c) == Success([])
  {
    ShortRunKeepsFence(c);
    assert |c| == 11 && c[4] == '[' && c[5] == '[' && c[6] == 'X' && c[7] == ']' && c[8] == ']' && c[9] == '`' && c[10] == '`';
    FenceSkipped(c, Cursor(4, Code, 2), 9);
    FenceCloseAdvancesOne(c, Cursor(9, Code, 2), 2);
    TickRunOpens(c, Cursor(10, Open, 0), 1);
    var none: seq<string> := [];
    assert Texts([]) == none && none + none == none;
  }

  /** In ``` ``a`b[[x ```, the two-tick fence never closes: the single tick is skipped and nothing is raised. */
  lemma UnclosedFenceHidesLink(c: string)
    requires c == "``a`b[[x"
    ensures Links(c) == Success([])
  {
    assert |c| == 8 && c[0] == '`' && c[1] == '`' && c[2] == 'a' && c[3] == '`' && c[4] == 'b' && c[5] == '[';
    assert ScanFrom(c, Cursor(0, Open, 0)) == ScanFrom(c, Cursor(2, CodeStart, 2)) by {
      assert MaximalRun(c, 0, 2, '`');
      TickRunOpens(c, Cursor(0, Open, 0), 2);
    }
    assert NoClosingRun(c, 2, 2) by {
      forall k: nat | 2 <= k ensures !TicksAt(c, k, 2) {
        if k + 2 <= |c| {
          assert c[k] != '`' || c[k + 1] != '`';
        }
      }
    }
    UnterminatedFence(c, Cursor(2, CodeStart, 2));
    var none: seq<string> := [];
    assert Texts([]) == none && none + none == none;
  }
}
