/**
 * obyde/util.py: the filename slug, the run-measuring primitive `_substr_cond`
 * and the wikilink scanner `parse_obsidian_links`.
 *
 * The scanner is given twice: `LinkSpans` is the reference definition, one
 * automaton step (`Step`) at a time, and `ParseObsidianLinks` is the source's
 * while loop, proved to compute the same list.
 */
module Util {
  import opened Wrappers

  /** The two `ValueError`s raised in this file. */
  datatype Error =
    | InvalidIndex          // `_substr_cond` called with a negative index
    | EofInLink(at: nat)    // a `[[` run at `at` with an empty body or no closing `]`

  // ---------------------------------------------------------------------------
  // slugify_md_filename
  // ---------------------------------------------------------------------------

  /** The characters of Python's `string.punctuation`. */
  const Punctuation: set<char> := {'!', '"', '#', '$', '%', '&', '\'', '(', ')', '*', '+', ',', '-', '.', '/', ':', ';', '<', '=', '>', '?', '@', '[', '\\', ']', '^', '_', '`', '{', '|', '}', '~'}

  /** The characters of Python's `string.whitespace`: space, tab, newline, carriage return, vertical tab, form feed. */
  const Whitespace: set<char> := {' ', '\t', '\n', '\r', '\U{B}', '\U{C}'}

  /** MOD_SLUG_ALPHABET: every character that `SLUG_TRANSLATION` maps to `-`. */
  const ModSlugAlphabet: set<char> := Punctuation + Whitespace

  /** `str.lower` on one character, for ASCII letters only. */
  function LowerAscii(c: char): char {
    if 'A' <= c <= 'Z' then (c as int + 32) as char else c
  }

  predicate IsUpperAscii(c: char) {
    'A' <= c <= 'Z'
  }

  /** `name.translate(SLUG_TRANSLATION)`. */
  function Translate(name: string): (t: string) {
    seq(|name|, i requires 0 <= i < |name| => if name[i] in ModSlugAlphabet then '-' else name[i])
  }

  /** `s.lower()` (ASCII letters only). */
  function Lower(s: string): string {
    seq(|s|, i requires 0 <= i < |s| => LowerAscii(s[i]))
  }

  /**
   * slugify_md_filename: the slug has the length of the name; a position holds `-`
   * exactly when the name has a punctuation or whitespace character there (or `-`
   * itself), and otherwise the name's character in lower case. No upper-case ASCII
   * letter and no slug-alphabet character other than `-` survives.
   */
  function SlugifyMdFilename(name: string): (slug: string)
    ensures |slug| == |name|
    ensures forall i :: 0 <= i < |name| ==> (slug[i] == '-' <==> name[i] in ModSlugAlphabet)
    ensures forall i :: 0 <= i < |name| && name[i] !in ModSlugAlphabet ==> slug[i] == LowerAscii(name[i])
    ensures forall i :: 0 <= i < |slug| ==> !IsUpperAscii(slug[i])
    ensures forall i :: 0 <= i < |slug| ==> slug[i] == '-' || slug[i] !in ModSlugAlphabet
  {
    Lower(Translate(name))
  }

  /** A slug is its own slug: slugifying twice is slugifying once. */
  lemma SlugifyIdempotent(name: string)
    ensures SlugifyMdFilename(SlugifyMdFilename(name)) == SlugifyMdFilename(name)
  {
    var slug := SlugifyMdFilename(name);
    forall i | 0 <= i < |slug|
      ensures SlugifyMdFilename(slug)[i] == slug[i]
    {
      if slug[i] != '-' {
        assert slug[i] !in ModSlugAlphabet;
        assert !IsUpperAscii(slug[i]);
      }
    }
  }

  // ---------------------------------------------------------------------------
  // _substr_cond
  // ---------------------------------------------------------------------------

  /**
   * `r` is the longest run of `s` starting at `idx` whose `k`-th character `c`
   * satisfies `cond(k, c)`: it is a slice of `s`, and it stops at the end of `s`
   * or at the first character that fails `cond`. From at or past the end it is empty.
   */
  predicate IsLongestRun(s: string, idx: nat, cond: (nat, char) -> bool, r: string) {
    if idx >= |s| then r == ""
    else
      idx + |r| <= |s| &&
      (forall k :: 0 <= k < |r| ==> r[k] == s[idx + k] && cond(k, r[k])) &&
      (idx + |r| == |s| || !cond(|r|, s[idx + |r|]))
  }

  /** The run of `Run(s, idx, cond)` from its `count`-th character on. */
  function RunFrom(s: string, idx: nat, cond: (nat, char) -> bool, count: nat): (r: string)
    ensures forall k :: 0 <= k < |r| ==> idx + count + k < |s| && r[k] == s[idx + count + k] && cond(count + k, r[k])
    ensures idx + count + |r| >= |s| || !cond(count + |r|, s[idx + count + |r|])
    decreases |s| - (idx + count)
  {
    if idx + count < |s| && cond(count, s[idx + count]) then
      [s[idx + count]] + RunFrom(s, idx, cond, count + 1)
    else
      ""
  }

  /** The longest run at `idx` (the value `_substr_cond` returns for a valid index). */
  function Run(s: string, idx: nat, cond: (nat, char) -> bool): (r: string)
    ensures IsLongestRun(s, idx, cond, r)
  {
    var r := RunFrom(s, idx, cond, 0);
    if idx < |s| && |r| > 0 then
      assert idx + (|r| - 1) < |s| by { assert r[|r| - 1] in r; }
      r
    else
      r
  }

  /** From its `count`-th character on, a longest run is what `RunFrom` measures. */
  lemma {:induction false} RunFromMatches(s: string, idx: nat, cond: (nat, char) -> bool, r: string, count: nat)
    requires IsLongestRun(s, idx, cond, r) && count <= |r|
    ensures RunFrom(s, idx, cond, count) == r[count..]
    decreases |r| - count
  {
    if count < |r| {
      RunFromMatches(s, idx, cond, r, count + 1);
      assert r[count..] == [r[count]] + r[count + 1..];
    }
  }

  /** The longest run is unique: whatever satisfies `IsLongestRun` is `Run`. */
  lemma LongestRunIsRun(s: string, idx: nat, cond: (nat, char) -> bool, r: string)
    requires IsLongestRun(s, idx, cond, r)
    ensures r == Run(s, idx, cond)
  {
    RunFromMatches(s, idx, cond, r, 0);
  }

  /**
   * _substr_cond(s, idx, cond): raises for a negative index; otherwise returns
   * the longest run at `idx` (empty when `idx` is at or past the end).
   */
  method SubstrCond(s: string, idx: int, cond: (nat, char) -> bool) returns (r: Result<string, Error>)
    ensures idx < 0 ==> r == Failure(InvalidIndex)
    ensures idx >= 0 ==> r == Success(Run(s, idx, cond))
  {
    var res := "";
    var count: nat := 0;
    if idx < 0 {
      return Failure(InvalidIndex);
    }
    while idx + count < |s|
      invariant |res| == count
      invariant count > 0 ==> idx + count <= |s|
      invariant forall k :: 0 <= k < count ==> idx + k < |s| && res[k] == s[idx + k] && cond(k, res[k])
      decreases |s| - (idx + count)
    {
      var c := s[idx + count];
      if cond(count, c) {
        res := res + [c];
      } else {
        break;
      }
      count := count + 1;
    }
    assert IsLongestRun(s, idx, cond, res);
    LongestRunIsRun(s, idx, cond, res);
    r := Success(res);
  }

  // ---------------------------------------------------------------------------
  // parse_obsidian_links
  // ---------------------------------------------------------------------------

  /** The conditions the scanner passes to `_substr_cond`; none looks at the count. */
  predicate IsTick(count: nat, c: char) { c == '`' }
  predicate IsOpenBracket(count: nat, c: char) { c == '[' }
  predicate IsNotCloseBracket(count: nat, c: char) { c != ']' }
  predicate IsCloseBracket(count: nat, c: char) { c == ']' }

  /** The scanner's `state`: outside any fence, just after an opening tick run, inside a fence. */
  datatype Fence = Open | CodeStart | Code

  /** The loop variables `idx`, `state` and `quotemult` between two steps. */
  datatype Cursor = Cursor(idx: nat, fence: Fence, quotemult: nat)

  /** A bracket construct found at `start`: its `[` run, its body and its `]` run. */
  datatype Span = Span(start: nat, opening: string, body: string, closing: string) {
    /** The link as `parse_obsidian_links` returns it. */
    function Text(): string { opening + body + closing }
    function End(): nat { start + |opening| + |body| + |closing| }
  }

  /** What one pass of the loop body does: the new cursor and the link it appends, if any. */
  datatype Advance = Advance(next: Cursor, link: Option<Span>)

  predicate AllChars(s: string, c: char) {
    forall i :: 0 <= i < |s| ==> s[i] == c
  }

  /** Two or more `[`, then one or more characters other than `]`, then two or more `]`. */
  predicate IsWikilink(sp: Span) {
    |sp.opening| >= 2 && AllChars(sp.opening, '[') &&
    |sp.body| >= 1 && ']' !in sp.body &&
    |sp.closing| >= 2 && AllChars(sp.closing, ']')
  }

  /** The span's text is the slice of `content` it claims to occupy. */
  predicate LocatedIn(content: string, sp: Span) {
    sp.End() <= |content| && content[sp.start..sp.End()] == sp.Text()
  }

  /** The three runs measured at a `[[` are consecutive slices, so their concatenation is one. */
  lemma LinkRunsFormSpan(content: string, sp: Span)
    requires sp.start < |content|
    requires sp.opening == Run(content, sp.start, IsOpenBracket) && |sp.opening| >= 2
    requires sp.body == Run(content, sp.start + |sp.opening|, IsNotCloseBracket) && sp.body != ""
    requires sp.closing == Run(content, sp.start + |sp.opening| + |sp.body|, IsCloseBracket) && sp.closing != ""
    ensures sp.End() <= |content| && LocatedIn(content, sp)
    ensures |sp.closing| >= 2 ==> IsWikilink(sp)
  {
    var i, j, k := sp.start, sp.start + |sp.opening|, sp.start + |sp.opening| + |sp.body|;
    assert content[i..sp.End()] == content[i..j] + content[j..k] + content[k..sp.End()];
    assert forall n :: 0 <= n < |sp.opening| ==> IsOpenBracket(n, sp.opening[n]);
    assert forall n :: 0 <= n < |sp.body| ==> IsNotCloseBracket(n, sp.body[n]);
    assert forall n :: 0 <= n < |sp.closing| ==> IsCloseBracket(n, sp.closing[n]);
  }

  /**
   * One pass of the loop body of parse_obsidian_links at `cur.idx`. Every step
   * advances by at least one position and stays within the content; a link it
   * reports starts at the current index, ends where the next step begins, is
   * well formed and is the slice of `content` it claims to be.
   */
  function Step(content: string, cur: Cursor): (r: Result<Advance, Error>)
    requires cur.idx < |content|
    ensures r.Success? ==> cur.idx < r.value.next.idx <= |content|
  {
    var idx := cur.idx;
    var c := content[idx];
    if c == '`' then
      if cur.fence == Open then
        var tickMult := Run(content, idx, IsTick);
        assert tickMult != "" by { assert !IsTick(0, content[idx]) ==> false; }
        Success(Advance(Cursor(idx + |tickMult|, CodeStart, |tickMult|), None))
      else if cur.fence == Code then
        var ltick := |Run(content, idx, IsTick)|;
        assert ltick > 0 by { assert !IsTick(0, content[idx]) ==> false; }
        if ltick < cur.quotemult then
          Success(Advance(Cursor(idx + ltick, Code, cur.quotemult), None))
        else
          // quotemult is reset before the increment reads it
          var quotemult := 0;
          var incr := 1 + (if ltick == quotemult then ltick else quotemult);
          Success(Advance(Cursor(idx + incr, Open, quotemult), None))
      else
        Success(Advance(Cursor(idx + 1, cur.fence, cur.quotemult), None))
    else
      var fence := if cur.fence == CodeStart then Code else cur.fence;
      if fence == Open && c == '[' then
        LinkStep(content, Cursor(idx, fence, cur.quotemult))
      else
        Success(Advance(Cursor(idx + 1, fence, cur.quotemult), None))
  }

  /**
   * The `'['` branch of the loop body, outside a fence: measure the `[` run; a single
   * `[` is passed over; after two or more, measure the body and the `]` run, raising
   * when either is empty, report the construct when the `]` run has two or more
   * characters, and continue after it in either case.
   */
  function LinkStep(content: string, cur: Cursor): (r: Result<Advance, Error>)
    requires cur.idx < |content| && content[cur.idx] == '['
    ensures r.Success? ==> cur.idx < r.value.next.idx <= |content|
    ensures r.Success? ==> r.value.next.fence == cur.fence && r.value.next.quotemult == cur.quotemult
  {
    var startUrl := Run(content, cur.idx, IsOpenBracket);
    var urlText := Run(content, cur.idx + |startUrl|, IsNotCloseBracket);
    var endUrl := Run(content, cur.idx + |startUrl| + |urlText|, IsCloseBracket);
    LinkOutcome(cur, startUrl, urlText, endUrl)
  }

  /** What the `'['` branch does, given the three runs it measures. */
  function LinkOutcome(cur: Cursor, startUrl: string, urlText: string, endUrl: string): Result<Advance, Error> {
    if |startUrl| >= 2 then
      if urlText == "" || endUrl == "" then Failure(EofInLink(cur.idx))
      else
        var sp := Span(cur.idx, startUrl, urlText, endUrl);
        Success(Advance(Cursor(sp.End(), cur.fence, cur.quotemult), if |endUrl| >= 2 then Some(sp) else None))
    else
      Success(Advance(Cursor(cur.idx + 1, cur.fence, cur.quotemult), None))
  }

  /**
   * A link reported by one step starts at the step's index, ends where the next
   * step begins, is a well-formed wikilink and is the slice of `content` it claims.
   */
  predicate ReportsWellFormed(content: string, cur: Cursor, r: Result<Advance, Error>) {
    r.Success? && r.value.link.Some? ==>
      var sp := r.value.link.value;
      sp.start == cur.idx && sp.End() == r.value.next.idx && IsWikilink(sp) && LocatedIn(content, sp)
  }

  lemma LinkStepWellFormed(content: string, cur: Cursor)
    requires cur.idx < |content| && content[cur.idx] == '['
    ensures ReportsWellFormed(content, cur, LinkStep(content, cur))
  {
    var startUrl := Run(content, cur.idx, IsOpenBracket);
    var urlText := Run(content, cur.idx + |startUrl|, IsNotCloseBracket);
    var endUrl := Run(content, cur.idx + |startUrl| + |urlText|, IsCloseBracket);
    assert LinkStep(content, cur) == LinkOutcome(cur, startUrl, urlText, endUrl);
    if |startUrl| >= 2 && urlText != "" && endUrl != "" {
      var sp := Span(cur.idx, startUrl, urlText, endUrl);
      LinkRunsFormSpan(content, sp);
      assert ReportsWellFormed(content, cur, LinkOutcome(cur, startUrl, urlText, endUrl));
    }
  }

  /** Every link one step of the scan reports is well formed and located where it claims. */
  lemma StepWellFormed(content: string, cur: Cursor)
    requires cur.idx < |content|
    ensures ReportsWellFormed(content, cur, Step(content, cur))
  {
    var fence := if cur.fence == CodeStart then Code else cur.fence;
    if content[cur.idx] != '`' && fence == Open && content[cur.idx] == '[' {
      LinkStepWellFormed(content, Cursor(cur.idx, fence, cur.quotemult));
    }
  }

  /** The spans the scan reports from `cur` to the end of `content`, or the error it raises. */
  function ScanFrom(content: string, cur: Cursor): Result<seq<Span>, Error>
    decreases |content| - cur.idx
  {
    if cur.idx >= |content| then Success([])
    else
      match Step(content, cur)
      case Failure(e) => Failure(e)
      case Success(adv) => Push(adv.link, ScanFrom(content, adv.next))
  }

  /** The link of one step, if any, in front of the spans of the steps after it. */
  function Push(link: Option<Span>, r: Result<seq<Span>, Error>): Result<seq<Span>, Error> {
    match r
    case Failure(e) => Failure(e)
    case Success(rest) => Success(if link.Some? then [link.value] + rest else rest)
  }

  /** One unfolding of `ScanFrom` at an index inside the content. */
  lemma ScanStep(content: string, cur: Cursor)
    requires cur.idx < |content|
    ensures Step(content, cur).Failure? ==> ScanFrom(content, cur) == Failure(Step(content, cur).error)
    ensures Step(content, cur).Success? ==>
      ScanFrom(content, cur) == Push(Step(content, cur).value.link, ScanFrom(content, Step(content, cur).value.next))
  {
  }

  /** Each span lies at or after `from`, is a well-formed wikilink and is the slice of `content` it claims. */
  predicate WellPlaced(content: string, spans: seq<Span>, from: nat) {
    (forall i :: 0 <= i < |spans| ==> from <= spans[i].start && IsWikilink(spans[i]) && LocatedIn(content, spans[i])) &&
    (forall i, j :: 0 <= i < j < |spans| ==> spans[i].End() <= spans[j].start)
  }

  /**
   * Every link the scan reports from `cur` on lies at or after `cur.idx`, is a
   * well-formed wikilink and is the slice of `content` it claims; the links are in
   * left-to-right order and do not overlap.
   */
  lemma {:induction false} ScanFromWellPlaced(content: string, cur: Cursor)
    ensures ScanFrom(content, cur).Success? ==> WellPlaced(content, ScanFrom(content, cur).value, cur.idx)
    decreases |content| - cur.idx
  {
    if cur.idx < |content| && Step(content, cur).Success? {
      var adv := Step(content, cur).value;
      StepWellFormed(content, cur);
      ScanFromWellPlaced(content, adv.next);
    }
  }

  /** The spans of all links in `content`, scanning from index 0 outside any fence. */
  function LinkSpans(content: string): Result<seq<Span>, Error> {
    ScanFrom(content, Cursor(0, Open, 0))
  }

  function Texts(spans: seq<Span>): seq<string> {
    if |spans| == 0 then [] else [spans[0].Text()] + Texts(spans[1..])
  }

  /** `links` followed by the texts of the spans, or the error. */
  function Prepend(links: seq<string>, r: Result<seq<Span>, Error>): Result<seq<string>, Error> {
    match r
    case Success(spans) => Success(links + Texts(spans))
    case Failure(e) => Failure(e)
  }

  /** Appending a step's link to `links` commutes with pushing it onto the rest of the scan. */
  lemma PrependPush(links: seq<string>, link: Option<Span>, r: Result<seq<Span>, Error>)
    ensures Prepend(links, Push(link, r))
         == Prepend(if link.Some? then links + [link.value.Text()] else links, r)
  {
    if r.Success? && link.Some? {
      assert ([link.value] + r.value)[1..] == r.value;
      assert links + ([link.value.Text()] + Texts(r.value)) == links + [link.value.Text()] + Texts(r.value);
    }
  }

  /** The list parse_obsidian_links returns for `content`, or the error it raises. */
  function Links(content: string): Result<seq<string>, Error> {
    Prepend([], LinkSpans(content))
  }

  /**
   * One pass of the loop body of parse_obsidian_links, with the loop variables
   * `idx`, `state` and `quotemult` passed in and their new values returned,
   * together with the link the pass appends, if any.
   */
  method ScanOnce(content: string, idx: nat, state: Fence, quotemult: nat) returns (r: Result<Advance, Error>)
    requires idx < |content|
    ensures r == Step(content, Cursor(idx, state, quotemult))
  {
    var state, quotemult := state, quotemult;
    var c := content[idx];
    var incr: nat := 1;
    var link: Option<Span> := None;
    if c == '`' {
      if state == Open {
        var tickMult := SubstrCond(content, idx, IsTick);
        quotemult := |tickMult.value|;
        state := CodeStart;
        incr := |tickMult.value|;
      } else if state == Code {
        var tickMult := SubstrCond(content, idx, IsTick);
        var ltick := |tickMult.value|;
        if ltick < quotemult {
          incr := ltick;
        } else {
          quotemult := 0;
          state := Open;
          incr := incr + (if ltick == quotemult then ltick else quotemult);
        }
      }
    } else {
      if state == CodeStart {
        state := Code;
      }
      if state == Open && c == '[' {
        r := ScanLink(content, idx, state, quotemult);
        return;
      }
    }
    return Success(Advance(Cursor(idx + incr, state, quotemult), link));
  }

  /**
   * The `'['` branch of the loop body outside a fence: the three runs are measured
   * with `_substr_cond` and the pass raises, skips or reports as `LinkStep` says.
   */
  method ScanLink(content: string, idx: nat, state: Fence, quotemult: nat) returns (r: Result<Advance, Error>)
    requires idx < |content| && content[idx] == '['
    ensures r == LinkStep(content, Cursor(idx, state, quotemult))
  {
    var incr: nat := 1;
    var link: Option<Span> := None;
    var startUrl := SubstrCond(content, idx, IsOpenBracket);
    if |startUrl.value| >= 2 {
      var urlText := SubstrCond(content, idx + |startUrl.value|, IsNotCloseBracket);
      if urlText.value == "" {
        return Failure(EofInLink(idx));
      }
      var endUrl := SubstrCond(content, idx + |startUrl.value| + |urlText.value|, IsCloseBracket);
      if endUrl.value == "" {
        return Failure(EofInLink(idx));
      }
      incr := |startUrl.value| + |urlText.value| + |endUrl.value|;
      if |endUrl.value| >= 2 {
        link := Some(Span(idx, startUrl.value, urlText.value, endUrl.value));
      }
    }
    return Success(Advance(Cursor(idx + incr, state, quotemult), link));
  }

  /** parse_obsidian_links: the source's loop computes `Links(content)`. */
  method ParseObsidianLinks(content: string) returns (r: Result<seq<string>, Error>)
    ensures r == Links(content)
  {
    var links: seq<string> := [];
    var state := Open;
    var quotemult: nat := 0;
    var idx: nat := 0;
    while idx < |content|
      invariant idx <= |content|
      invariant Links(content) == Prepend(links, ScanFrom(content, Cursor(idx, state, quotemult)))
      decreases |content| - idx
    {
      ghost var cur := Cursor(idx, state, quotemult);
      ghost var before := links;
      var step := ScanOnce(content, idx, state, quotemult);
      ScanStep(content, cur);
      if step.Failure? {
        return Failure(step.error);
      }
      var link := step.value.link;
      if link.Some? {
        links := links + [link.value.opening + link.value.body + link.value.closing];
      }
      idx, state, quotemult := step.value.next.idx, step.value.next.fence, step.value.next.quotemult;
      PrependPush(before, link, ScanFrom(content, step.value.next));
    }
    assert Texts([]) == [] && links + [] == links;
    return Success(links);
  }
}
