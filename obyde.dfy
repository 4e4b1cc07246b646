/**
 * obyde/__init__.py: the pure parts of the vault processor. A post's date is
 * validated, a post link is generated for the configured site generator, and
 * the wikilinks found in a post are rewritten into Markdown links to assets or
 * to other posts.
 */
module Obyde {
  import opened Wrappers
  import opened Strings
  import Util
  import LinksFacts

  /** The `ValueError`s this part of the program raises. */
  datatype Error =
    | ScanFailed(cause: Util.Error)           // raised by parse_obsidian_links
    | UnknownPostLinkMode(mode: string)       // generate_post_link with a mode other than jekyll or hugo
    | MissingPostDate(path: string)           // validate_postdate on an empty date
    | InvalidDateFormat                       // validate_postdate on a date not shaped YYYY-MM-DD

  // ---------------------------------------------------------------------------
  // validate_postdate
  // ---------------------------------------------------------------------------

  /** A character of Python's `string.digits`. */
  predicate IsDigit(c: char) {
    '0' <= c <= '9'
  }

  /** Every character of `s` is a digit (true of the empty string). */
  predicate AllDigits(s: string) {
    forall i :: 0 <= i < |s| ==> IsDigit(s[i])
  }

  /** Every character of `s` is a digit or `sep`. */
  predicate DigitsOrSep(s: string, sep: char) {
    forall i :: 0 <= i < |s| ==> s[i] == sep || IsDigit(s[i])
  }

  /** Every part is all digits. */
  predicate AllPartsDigits(parts: seq<string>) {
    forall i :: 0 <= i < |parts| ==> AllDigits(parts[i])
  }

  /** validate_postdate: the date itself when it splits on `-` into three all-digit parts. */
  function ValidatePostdate(path: string, postdate: string): Result<string, Error> {
    if postdate == "" then Failure(MissingPostDate(path))
    else
      var components := Split(postdate, '-');
      if |components| == 3 && AllDigits(components[0]) && AllDigits(components[1]) && AllDigits(components[2])
      then Success(postdate)
      else Failure(InvalidDateFormat)
  }

  lemma DigitsOrSepConcat(a: string, b: string, sep: char)
    ensures DigitsOrSep(a + b, sep) <==> DigitsOrSep(a, sep) && DigitsOrSep(b, sep)
  {
    if DigitsOrSep(a, sep) && DigitsOrSep(b, sep) {
      forall i | 0 <= i < |a + b| ensures (a + b)[i] == sep || IsDigit((a + b)[i]) {
        if i >= |a| { assert (a + b)[i] == b[i - |a|]; }
      }
    }
    if DigitsOrSep(a + b, sep) {
      forall i | 0 <= i < |b| ensures b[i] == sep || IsDigit(b[i]) {
        assert (a + b)[|a| + i] == b[i];
      }
      forall i | 0 <= i < |a| ensures a[i] == sep || IsDigit(a[i]) {
        assert (a + b)[i] == a[i];
      }
    }
  }

  /** Parts without the separator are all digits exactly when their join is digits and separators. */
  lemma {:induction false} JoinDigits(parts: seq<string>, sep: char)
    requires !IsDigit(sep)
    requires forall i :: 0 <= i < |parts| ==> sep !in parts[i]
    ensures DigitsOrSep(Join(parts, sep), sep) <==> AllPartsDigits(parts)
    decreases |parts|
  {
    if |parts| == 1 {
      assert sep !in parts[0];
      assert DigitsOrSep(parts[0], sep) <==> AllDigits(parts[0]) by {
        if DigitsOrSep(parts[0], sep) {
          forall k | 0 <= k < |parts[0]| ensures IsDigit(parts[0][k]) {
            assert parts[0][k] in parts[0];
          }
        }
      }
    } else if |parts| > 1 {
      var rest := parts[1..];
      JoinDigits(rest, sep);
      JoinDigits([parts[0]], sep);
      DigitsOrSepConcat(parts[0] + [sep], Join(rest, sep), sep);
      DigitsOrSepConcat(parts[0], [sep], sep);
      assert Join([parts[0]], sep) == parts[0];
      assert forall i :: 1 <= i < |parts| ==> parts[i] == rest[i - 1];
    }
  }

  /** Three parts are all digits when each of them is. */
  lemma ThreePartsDigits(parts: seq<string>)
    requires |parts| == 3
    ensures AllPartsDigits(parts) == (AllDigits(parts[0]) && AllDigits(parts[1]) && AllDigits(parts[2]))
  {
    if AllDigits(parts[0]) && AllDigits(parts[1]) && AllDigits(parts[2]) {
      forall i | 0 <= i < |parts| ensures AllDigits(parts[i]) {
        if i == 0 {} else if i == 1 {} else {}
      }
    }
  }

  /**
   * validate_postdate accepts exactly the non-empty dates with two `-` whose other
   * characters are all digits, and then returns the date unchanged; an empty date
   * raises its own error, any other date the format error.
   */
  lemma ValidatePostdateAccepts(path: string, postdate: string)
    ensures ValidatePostdate(path, postdate).Success? <==>
      postdate != "" && Count(postdate, '-') == 2 && DigitsOrSep(postdate, '-')
    ensures ValidatePostdate(path, postdate).Success? ==> ValidatePostdate(path, postdate).value == postdate
    ensures postdate == "" ==> ValidatePostdate(path, postdate) == Failure(MissingPostDate(path))
    ensures postdate != "" && ValidatePostdate(path, postdate).Failure? ==> ValidatePostdate(path, postdate) == Failure(InvalidDateFormat)
  {
    if postdate != "" {
      var components := Split(postdate, '-');
      assert |components| == Count(postdate, '-') + 1 && Join(components, '-') == postdate;
      JoinDigits(components, '-');
      assert DigitsOrSep(postdate, '-') == AllPartsDigits(components);
      var threeDigitParts := |components| == 3 &&
        AllDigits(components[0]) && AllDigits(components[1]) && AllDigits(components[2]);
      assert ValidatePostdate(path, postdate) == if threeDigitParts then Success(postdate) else Failure(InvalidDateFormat);
      if |components| == 3 {
        ThreePartsDigits(components);
      }
      assert threeDigitParts == (|components| == 3 && AllPartsDigits(components));
    }
  }

  /** Three digit runs joined by `-` form a valid date, whatever their lengths. */
  lemma DigitRunsAccepted(path: string, year: string, month: string, day: string)
    requires AllDigits(year) && AllDigits(month) && AllDigits(day)
    ensures ValidatePostdate(path, year + "-" + month + "-" + day) == Success(year + "-" + month + "-" + day)
  {
    var postdate := year + "-" + month + "-" + day;
    assert postdate[|year|] == '-';
    assert '-' !in year by { assert forall k :: 0 <= k < |year| ==> IsDigit(year[k]); }
    assert '-' !in month by { assert forall k :: 0 <= k < |month| ==> IsDigit(month[k]); }
    assert '-' !in day by { assert forall k :: 0 <= k < |day| ==> IsDigit(day[k]); }
    assert postdate == year + ['-'] + (month + ['-'] + day);
    SplitAtFirst(year, month + ['-'] + day, '-');
    SplitAtFirst(month, day, '-');
    SplitWithoutSep(day, '-');
  }

  /** A non-empty date without any `-` is rejected for its format. */
  lemma UnseparatedDateRejected(path: string, postdate: string)
    requires postdate != "" && '-' !in postdate
    ensures ValidatePostdate(path, postdate) == Failure(InvalidDateFormat)
  {
    SplitWithoutSep(postdate, '-');
  }

  // ---------------------------------------------------------------------------
  // generate_post_link
  // ---------------------------------------------------------------------------

  /** The text around the dated name in a post link, per mode. */
  const JekyllPrefix: string := "{% post_url "
  const JekyllSuffix: string := " %}"
  const HugoPrefix: string := "{{< relref \""
  const HugoSuffix: string := "\" >}}"

  /** generate_post_link: the link syntax of Jekyll or Hugo for a dated post name. */
  function GeneratePostLink(datedName: string, postLinkMode: string): Result<string, Error> {
    if postLinkMode == "jekyll" then Success(JekyllPrefix + datedName + JekyllSuffix)
    else if postLinkMode == "hugo" then Success(HugoPrefix + datedName + HugoSuffix)
    else Failure(UnknownPostLinkMode(postLinkMode))
  }

  /** The text around `p + n + s` gives `n` back. */
  lemma Unwrap(p: string, n: string, s: string)
    ensures (p + n + s)[|p|..|p| + |n|] == n
  {
    assert (p + n + s)[|p|..|p| + |n|] == (p + n + s)[..|p| + |n|][|p|..];
    assert (p + n + s)[..|p| + |n|] == p + n;
  }

  /**
   * A post link is the mode's prefix, the dated name and the mode's suffix; the
   * name can be read back from the link, so different names give different
   * links. Any mode but jekyll and hugo raises.
   */
  lemma PostLinkNameRecovered(datedName: string, postLinkMode: string)
    ensures postLinkMode == "jekyll" ==>
      GeneratePostLink(datedName, postLinkMode).Success? &&
      GeneratePostLink(datedName, postLinkMode).value[|JekyllPrefix|..|JekyllPrefix| + |datedName|] == datedName
    ensures postLinkMode == "hugo" ==>
      GeneratePostLink(datedName, postLinkMode).Success? &&
      GeneratePostLink(datedName, postLinkMode).value[|HugoPrefix|..|HugoPrefix| + |datedName|] == datedName
    ensures postLinkMode != "jekyll" && postLinkMode != "hugo" ==>
      GeneratePostLink(datedName, postLinkMode) == Failure(UnknownPostLinkMode(postLinkMode))
  {
    Unwrap(JekyllPrefix, datedName, JekyllSuffix);
    Unwrap(HugoPrefix, datedName, HugoSuffix);
  }

  /** Two dated names get the same link in the same mode only when they are the same name. */
  lemma PostLinkInjective(a: string, b: string, postLinkMode: string)
    requires GeneratePostLink(a, postLinkMode).Success?
    requires GeneratePostLink(a, postLinkMode) == GeneratePostLink(b, postLinkMode)
    ensures a == b
  {
    PostLinkNameRecovered(a, postLinkMode);
    PostLinkNameRecovered(b, postLinkMode);
  }

  // ---------------------------------------------------------------------------
  // rewrite_links: decomposing a link
  // ---------------------------------------------------------------------------

  /** `link.replace('[[', '').replace(']]', '')`. */
  function StripBrackets(link: string): string {
    ReplaceAll(ReplaceAll(link, "[[", ""), "]]", "")
  }

  /**
   * The target and the display text of a link: with a `|`, the text before the
   * first `|` and the text between the first and the second; without, the
   * stripped text twice.
   */
  function DecomposeLink(link: string): (string, string) {
    var linkText := StripBrackets(link);
    if '|' in linkText then
      var splitLink := Split(linkText, '|');
      (splitLink[0], if |splitLink| > 1 then splitLink[1] else "")
    else
      (linkText, linkText)
  }

  /** Stripping the brackets of `[[b]]` gives `b` back, when `b` has no brackets of its own. */
  lemma StripWikilinkBrackets(b: string)
    requires '[' !in b && ']' !in b
    ensures StripBrackets("[[" + b + "]]") == b
  {
    assert "[[" + b + "]]" == "[[" + (b + "]]");
    ReplaceLeading(b + "]]", "[[", "");
    ReplaceAfterPrefix(b, "]]", "[[", "");
    assert ReplaceAll("]]", "[[", "") == "]]";
    assert "" + (b + "]]") == b + "]]";
    ReplaceAfterPrefix(b, "]]", "]]", "");
    ReplaceLeading("", "]]", "");
    assert b + "" == b;
  }

  /** Splitting at a first separator: the text before it is the first part. */
  lemma {:induction false} SplitAtFirst(t: string, r: string, sep: char)
    requires sep !in t
    ensures Split(t + [sep] + r, sep) == [t] + Split(r, sep)
  {
    var s := t + [sep] + r;
    if |t| == 0 {
      assert s == [sep] + r;
      assert s[1..] == r;
    } else {
      assert s[1..] == t[1..] + [sep] + r;
      SplitAtFirst(t[1..], r, sep);
      assert [t[0]] + t[1..] == t;
    }
  }

  /** Text without the separator splits into itself. */
  lemma {:induction false} SplitWithoutSep(t: string, sep: char)
    requires sep !in t
    ensures Split(t, sep) == [t]
  {
    if |t| > 0 {
      SplitWithoutSep(t[1..], sep);
      assert [t[0]] + t[1..] == t;
    }
  }

  /** Without a `|`, a link `[[b]]` points at `b` and displays `b`. */
  lemma PlainLinkDecomposes(b: string)
    requires '[' !in b && ']' !in b && '|' !in b
    ensures DecomposeLink("[[" + b + "]]") == (b, b)
  {
    StripWikilinkBrackets(b);
  }

  /**
   * `[[t|d]]`, possibly followed by further `|` segments, points at `t` and
   * displays `d`; the later segments are dropped.
   */
  lemma DisplayLinkDecomposes(t: string, d: string, rest: string)
    requires '[' !in t + "|" + d + rest && ']' !in t + "|" + d + rest
    requires '|' !in t && '|' !in d && (rest == "" || rest[0] == '|')
    ensures DecomposeLink("[[" + t + "|" + d + rest + "]]") == (t, d)
  {
    var body := t + "|" + d + rest;
    assert "[[" + t + "|" + d + rest + "]]" == "[[" + body + "]]";
    StripWikilinkBrackets(body);
    assert body[|t|] == '|';
    assert body == t + ['|'] + (d + rest);
    SplitAtFirst(t, d + rest, '|');
    if rest == "" {
      assert d + rest == d;
      SplitWithoutSep(d, '|');
    } else {
      assert d + rest == d + ['|'] + rest[1..];
      SplitAtFirst(d, rest[1..], '|');
    }
  }

  // ---------------------------------------------------------------------------
  // rewrite_links: matching assets and posts
  // ---------------------------------------------------------------------------

  /** An entry of the asset index: the file name, its path in the vault, its new name. */
  datatype Asset = Asset(filename: string, oldPath: string, newPath: string)

  /** An entry of the dated-file index: the dated name, with extension, and the post's path. */
  datatype DatedFile = DatedFile(datedName: string, datedNameExt: string, path: string)

  /** The link's target occurs in the asset's file name or in its old path. */
  predicate Matches(asset: Asset, target: string) {
    Contains(asset.filename, target) || Contains(asset.oldPath, target)
  }

  /** The first asset at or after `from`, in index order, that the target matches. */
  function FirstMatchFrom(assets: seq<Asset>, target: string, from: nat): (r: Option<nat>)
    ensures r.Some? ==>
      from <= r.value < |assets| && Matches(assets[r.value], target) &&
      forall k :: from <= k < r.value ==> !Matches(assets[k], target)
    ensures r.None? ==> forall k :: from <= k < |assets| ==> !Matches(assets[k], target)
    decreases |assets| - from
  {
    if from >= |assets| then None
    else if Matches(assets[from], target) then Some(from)
    else FirstMatchFrom(assets, target, from + 1)
  }

  /** The Markdown link `[text](url)`. */
  function MarkdownLink(text: string, url: string): string {
    "[" + text + "](" + url + ")"
  }

  /**
   * One pass of the loop over links: the first matching asset wins and every
   * occurrence of the raw link becomes a link to the asset's new path; otherwise a
   * post whose slug is the slugified target, with a non-empty dated name, gets a
   * post link; otherwise the text is left as it is.
   */
  function RewriteOne(rewritten: string, link: string, datedFileIndex: map<string, DatedFile>,
                      assetIndex: seq<Asset>, relativeAssetPathPrefix: string, postLinkMode: string): Result<string, Error>
  {
    var (linkTarget, linkText) := DecomposeLink(link);
    match FirstMatchFrom(assetIndex, linkTarget, 0)
    case Some(i) =>
      Success(ReplaceAll(rewritten, link, MarkdownLink(linkText, relativeAssetPathPrefix + "/" + assetIndex[i].newPath)))
    case None =>
      var linkNameSlug := Util.SlugifyMdFilename(linkTarget);
      if linkNameSlug in datedFileIndex && datedFileIndex[linkNameSlug].datedName != "" then
        match GeneratePostLink(datedFileIndex[linkNameSlug].datedName, postLinkMode)
        case Failure(e) => Failure(e)
        case Success(postLink) => Success(ReplaceAll(rewritten, link, MarkdownLink(linkText, postLink)))
      else
        Success(rewritten)
  }

  /** The links applied one after the other, from the first; the first error stops the loop. */
  function RewriteAll(content: string, links: seq<string>, datedFileIndex: map<string, DatedFile>,
                      assetIndex: seq<Asset>, relativeAssetPathPrefix: string, postLinkMode: string): Result<string, Error>
  {
    if |links| == 0 then Success(content)
    else
      match RewriteAll(content, links[..|links| - 1], datedFileIndex, assetIndex, relativeAssetPathPrefix, postLinkMode)
      case Failure(e) => Failure(e)
      case Success(rewritten) =>
        RewriteOne(rewritten, links[|links| - 1], datedFileIndex, assetIndex, relativeAssetPathPrefix, postLinkMode)
  }

  /** Once a link raises, the later links are not looked at: the error is the result. */
  lemma {:induction false} FirstErrorStops(content: string, links: seq<string>, k: nat, datedFileIndex: map<string, DatedFile>,
                                           assetIndex: seq<Asset>, relativeAssetPathPrefix: string, postLinkMode: string)
    requires k <= |links|
    requires RewriteAll(content, links[..k], datedFileIndex, assetIndex, relativeAssetPathPrefix, postLinkMode).Failure?
    ensures RewriteAll(content, links, datedFileIndex, assetIndex, relativeAssetPathPrefix, postLinkMode)
         == RewriteAll(content, links[..k], datedFileIndex, assetIndex, relativeAssetPathPrefix, postLinkMode)
  {
    if k == |links| {
      assert links[..k] == links;
    } else {
      var shorter := links[..|links| - 1];
      assert shorter[..k] == links[..k];
      FirstErrorStops(content, shorter, k, datedFileIndex, assetIndex, relativeAssetPathPrefix, postLinkMode);
    }
  }

  /** One more link rewrites the text the earlier links left. */
  lemma RewriteAllExtend(content: string, links: seq<string>, n: nat, datedFileIndex: map<string, DatedFile>,
                         assetIndex: seq<Asset>, relativeAssetPathPrefix: string, postLinkMode: string)
    requires n < |links|
    ensures var before := RewriteAll(content, links[..n], datedFileIndex, assetIndex, relativeAssetPathPrefix, postLinkMode);
      RewriteAll(content, links[..n + 1], datedFileIndex, assetIndex, relativeAssetPathPrefix, postLinkMode) ==
        if before.Failure? then before
        else RewriteOne(before.value, links[n], datedFileIndex, assetIndex, relativeAssetPathPrefix, postLinkMode)
  {
    assert links[..n + 1][..n] == links[..n];
  }

  /** What rewrite_links returns for `content`, or the error it raises. */
  function RewrittenLinks(content: string, datedFileIndex: map<string, DatedFile>,
                          assetIndex: seq<Asset>, relativeAssetPathPrefix: string, postLinkMode: string): Result<string, Error>
  {
    match Util.Links(content)
    case Failure(e) => Failure(ScanFailed(e))
    case Success(links) => RewriteAll(content, links, datedFileIndex, assetIndex, relativeAssetPathPrefix, postLinkMode)
  }

  /** A post without any `[` has no links, so rewrite_links returns it unchanged. */
  lemma NoBracketsNoRewrite(content: string, datedFileIndex: map<string, DatedFile>, assetIndex: seq<Asset>,
                            relativeAssetPathPrefix: string, postLinkMode: string)
    requires '[' !in content
    ensures RewrittenLinks(content, datedFileIndex, assetIndex, relativeAssetPathPrefix, postLinkMode) == Success(content)
  {
    LinksFacts.NoBracketContentHasNoLinks(content);
  }

  /**
   * A plain link `[[b]]` whose target occurs first in asset `i` of the index is
   * replaced, everywhere, by a link to that asset's new path; the assets after it
   * and the posts are not consulted.
   */
  lemma FirstAssetWins(rewritten: string, b: string, datedFileIndex: map<string, DatedFile>, assetIndex: seq<Asset>,
                       i: nat, relativeAssetPathPrefix: string, postLinkMode: string)
    requires '[' !in b && ']' !in b && '|' !in b
    requires i < |assetIndex| && Matches(assetIndex[i], b)
    requires forall k :: 0 <= k < i ==> !Matches(assetIndex[k], b)
    ensures RewriteOne(rewritten, "[[" + b + "]]", datedFileIndex, assetIndex, relativeAssetPathPrefix, postLinkMode)
         == Success(ReplaceAll(rewritten, "[[" + b + "]]", MarkdownLink(b, relativeAssetPathPrefix + "/" + assetIndex[i].newPath)))
  {
    PlainLinkDecomposes(b);
    var m := FirstMatchFrom(assetIndex, b, 0);
    assert m == Some(i);
  }

  /**
   * A plain link `[[b]]` that matches no asset, and whose slug names a post with a
   * dated name, becomes a link to that post in the syntax of the mode.
   */
  lemma UnmatchedLinkToPost(rewritten: string, b: string, datedFileIndex: map<string, DatedFile>, assetIndex: seq<Asset>,
                            relativeAssetPathPrefix: string)
    requires '[' !in b && ']' !in b && '|' !in b
    requires forall k :: 0 <= k < |assetIndex| ==> !Matches(assetIndex[k], b)
    requires Util.SlugifyMdFilename(b) in datedFileIndex && datedFileIndex[Util.SlugifyMdFilename(b)].datedName != ""
    ensures RewriteOne(rewritten, "[[" + b + "]]", datedFileIndex, assetIndex, relativeAssetPathPrefix, "jekyll")
         == Success(ReplaceAll(rewritten, "[[" + b + "]]",
              MarkdownLink(b, JekyllPrefix + datedFileIndex[Util.SlugifyMdFilename(b)].datedName + JekyllSuffix)))
    ensures RewriteOne(rewritten, "[[" + b + "]]", datedFileIndex, assetIndex, relativeAssetPathPrefix, "hugo")
         == Success(ReplaceAll(rewritten, "[[" + b + "]]",
              MarkdownLink(b, HugoPrefix + datedFileIndex[Util.SlugifyMdFilename(b)].datedName + HugoSuffix)))
  {
    PlainLinkDecomposes(b);
    assert FirstMatchFrom(assetIndex, b, 0).None?;
  }

  /**
   * A link that matches no asset and no post with a dated name is left as it is,
   * in every mode; in particular an unknown mode does not raise for it.
   */
  lemma UnmatchedLinkKept(rewritten: string, link: string, datedFileIndex: map<string, DatedFile>, assetIndex: seq<Asset>,
                          relativeAssetPathPrefix: string, postLinkMode: string)
    requires forall k :: 0 <= k < |assetIndex| ==> !Matches(assetIndex[k], DecomposeLink(link).0)
    requires var slug := Util.SlugifyMdFilename(DecomposeLink(link).0);
      slug !in datedFileIndex || datedFileIndex[slug].datedName == ""
    ensures RewriteOne(rewritten, link, datedFileIndex, assetIndex, relativeAssetPathPrefix, postLinkMode) == Success(rewritten)
  {
    assert FirstMatchFrom(assetIndex, DecomposeLink(link).0, 0).None?;
  }

  /**
   * With the modes that process_vault lets through, rewriting the links never
   * raises: the only error left is the scanner's.
   */
  lemma {:induction false} ValidModeRewritesAll(content: string, links: seq<string>, datedFileIndex: map<string, DatedFile>,
                                                assetIndex: seq<Asset>, relativeAssetPathPrefix: string, postLinkMode: string)
    requires postLinkMode == "jekyll" || postLinkMode == "hugo"
    ensures RewriteAll(content, links, datedFileIndex, assetIndex, relativeAssetPathPrefix, postLinkMode).Success?
  {
    if |links| > 0 {
      ValidModeRewritesAll(content, links[..|links| - 1], datedFileIndex, assetIndex, relativeAssetPathPrefix, postLinkMode);
    }
  }

  /** rewrite_links, called as process_vault calls it, fails only when a link is not closed. */
  lemma ValidModeOnlyScanFails(content: string, datedFileIndex: map<string, DatedFile>, assetIndex: seq<Asset>,
                               relativeAssetPathPrefix: string, postLinkMode: string)
    requires postLinkMode == "jekyll" || postLinkMode == "hugo"
    ensures RewrittenLinks(content, datedFileIndex, assetIndex, relativeAssetPathPrefix, postLinkMode).Failure? <==>
      Util.Links(content).Failure?
    ensures Util.Links(content).Failure? ==>
      RewrittenLinks(content, datedFileIndex, assetIndex, relativeAssetPathPrefix, postLinkMode)
        == Failure(ScanFailed(Util.Links(content).error))
  {
    if Util.Links(content).Success? {
      ValidModeRewritesAll(content, Util.Links(content).value, datedFileIndex, assetIndex, relativeAssetPathPrefix, postLinkMode);
    }
  }

  /** The first statements of rewrite_links' loop body: the link's target and display text. */
  method SplitLinkText(link: string) returns (linkTarget: string, linkText: string)
    ensures (linkTarget, linkText) == DecomposeLink(link)
  {
    linkText := StripBrackets(link);
    linkTarget := linkText;
    if '|' in linkText {
      var splitLink := Split(linkText, '|');
      linkTarget := splitLink[0];
      linkText := if |splitLink| > 1 then splitLink[1] else "";
    }
  }

  /** The body of rewrite_links' loop over links, for one link. */
  method RewriteLink(rewritten: string, link: string, datedFileIndex: map<string, DatedFile>, assetIndex: seq<Asset>,
                     relativeAssetPathPrefix: string, postLinkMode: string) returns (r: Result<string, Error>)
    ensures r == RewriteOne(rewritten, link, datedFileIndex, assetIndex, relativeAssetPathPrefix, postLinkMode)
  {
    var linkTarget, linkText := SplitLinkText(link);
    var i := 0;
    while i < |assetIndex|
      invariant 0 <= i <= |assetIndex|
      invariant FirstMatchFrom(assetIndex, linkTarget, i) == FirstMatchFrom(assetIndex, linkTarget, 0)
    {
      var asset := assetIndex[i];
      if Contains(asset.filename, linkTarget) || Contains(asset.oldPath, linkTarget) {
        return Success(ReplaceAll(rewritten, link, MarkdownLink(linkText, relativeAssetPathPrefix + "/" + asset.newPath)));
      }
      i := i + 1;
    }
    var linkNameSlug := Util.SlugifyMdFilename(linkTarget);
    if linkNameSlug in datedFileIndex && datedFileIndex[linkNameSlug].datedName != "" {
      var postLink := GeneratePostLink(datedFileIndex[linkNameSlug].datedName, postLinkMode);
      if postLink.Failure? {
        return Failure(postLink.error);
      }
      return Success(ReplaceAll(rewritten, link, MarkdownLink(linkText, postLink.value)));
    }
    return Success(rewritten);
  }

  /** rewrite_links: the source's loop over links computes `RewrittenLinks`. */
  method RewriteLinks(content: string, datedFileIndex: map<string, DatedFile>, assetIndex: seq<Asset>,
                      relativeAssetPathPrefix: string, postLinkMode: string) returns (r: Result<string, Error>)
    ensures r == RewrittenLinks(content, datedFileIndex, assetIndex, relativeAssetPathPrefix, postLinkMode)
  {
    var parsed := Util.ParseObsidianLinks(content);
    if parsed.Failure? {
      return Failure(ScanFailed(parsed.error));
    }
    var obsidianLinks := parsed.value;
    var rewritten := content;
    for n := 0 to |obsidianLinks|
      invariant RewriteAll(content, obsidianLinks[..n], datedFileIndex, assetIndex, relativeAssetPathPrefix, postLinkMode)
             == Success(rewritten)
    {
      RewriteAllExtend(content, obsidianLinks, n, datedFileIndex, assetIndex, relativeAssetPathPrefix, postLinkMode);
      var next := RewriteLink(rewritten, obsidianLinks[n], datedFileIndex, assetIndex, relativeAssetPathPrefix, postLinkMode);
      if next.Failure? {
        FirstErrorStops(content, obsidianLinks, n + 1, datedFileIndex, assetIndex, relativeAssetPathPrefix, postLinkMode);
        return Failure(next.error);
      }
      rewritten := next.value;
    }
    assert obsidianLinks[..|obsidianLinks|] == obsidianLinks;
    return Success(rewritten);
  }
}
