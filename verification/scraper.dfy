/** The scraper's pure core: the domain it stays on, the links it refuses to
    follow, how a page's text is cleaned and recorded, and how the recorded pages
    are cut into fixed-size chunks for the knowledge base.

    Fetching, the HTML tree and writing JSON are left out; a fetched page enters
    the model as its URL, the text of its `<title>` and the text of its DOM once
    scripts, styles and navigation are removed. */
module Scraper {

  import opened Basics
  import opened Strings
  import Utf8

  /** One recorded page; `length` is Go's `len(text)`, a count of bytes. */
  datatype PageData = PageData(url: string, title: string, text: string, length: int)

  /** One piece of a page's text: bytes `startPos .. endPos` of its UTF-8 form. */
  datatype Chunk = Chunk(
    id: int,
    url: string,
    title: string,
    text: seq<Utf8.byte>,
    startPos: int,
    endPos: int)

  // ---------------------------------------------------------------------------
  // Allowed domain
  // ---------------------------------------------------------------------------

  /** The URL without a leading `http://` or `https://`. */
  function StripScheme(u: string): string
  {
    if HasPrefix(u, "http://") then u[7..]
    else if HasPrefix(u, "https://") then u[8..]
    else u
  }

  /** The host the crawl stays on: what follows the scheme, up to the first `/`. */
  function ExtractDomain(u: string): (d: string)
    ensures '/' !in d
    ensures HasPrefix(StripScheme(u), d)
    ensures d == StripScheme(u) || StripScheme(u)[|d|] == '/'
  {
    var rest := StripScheme(u);
    match IndexOf(rest, '/')
    case None => rest
    case Some(i) => rest[..i]
  }

  /** A host after an `http://` or `https://` scheme, followed by nothing or by
      a path, gives back the host. */
  lemma ExtractDomainOfUrl(scheme: string, host: string, path: string)
    requires scheme == "http://" || scheme == "https://"
    requires '/' !in host
    requires path == [] || path[0] == '/'
    ensures ExtractDomain(scheme + host + path) == host
  {
    var u := scheme + host + path;
    assert u[..|scheme|] == scheme;
    if scheme == "https://" {
      assert u[4] == 's';
    }
    var rest := StripScheme(u);
    assert rest == u[|scheme|..] == host + path;
    if path == [] {
      assert rest == host;
    } else {
      assert rest[|host|] == '/' && rest[..|host|] == host;
      IndexOfFirst(rest, '/', |host|);
    }
  }

  /** A string without `/` and hence without a scheme is its own domain. */
  lemma ExtractDomainWithoutSlash(d: string)
    requires '/' !in d
    ensures ExtractDomain(d) == d
  {
    assert !HasPrefix(d, "http://") by {
      if |d| >= 7 { assert d[5] in d; }
    }
    assert !HasPrefix(d, "https://") by {
      if |d| >= 8 { assert d[6] in d; }
    }
  }

  /** The domain of a domain is itself. */
  lemma ExtractDomainIdempotent(u: string)
    ensures ExtractDomain(ExtractDomain(u)) == ExtractDomain(u)
  {
    ExtractDomainWithoutSlash(ExtractDomain(u));
  }

  // ---------------------------------------------------------------------------
  // Links that are not followed
  // ---------------------------------------------------------------------------

  /** File types the crawl never follows. */
  const SkipExtensions: seq<string> :=
    [".pdf", ".jpg", ".jpeg", ".png", ".gif", ".zip",
     ".doc", ".docx", ".xls", ".xlsx", ".mp4", ".avi"]

  /** The lower-cased link ends in one of the skipped extensions. */
  predicate HasSkippedExtension(url: string)
  {
    exists k :: 0 <= k < |SkipExtensions| && HasSuffix(Lower(url), SkipExtensions[k])
  }

  /** `shouldSkipURL`: scans the extensions in order and stops at the first hit. */
  method ShouldSkipURL(url: string) returns (skip: bool)
    ensures skip <==> HasSkippedExtension(url)
  {
    var lowerURL := Lower(url);
    var k := 0;
    while k < |SkipExtensions|
      invariant 0 <= k <= |SkipExtensions|
      invariant forall j :: 0 <= j < k ==> !HasSuffix(lowerURL, SkipExtensions[j])
    {
      if HasSuffix(lowerURL, SkipExtensions[k]) {
        return true;
      }
      k := k + 1;
    }
    return false;
  }

  /** The test ignores case: a link and its lower-case form are skipped alike. */
  lemma SkipIgnoresCase(url: string)
    ensures HasSkippedExtension(Lower(url)) <==> HasSkippedExtension(url)
  {
    LowerIdempotent(url);
  }

  lemma SkipExamples()
    ensures HasSkippedExtension("https://mosmetro.ru/files/Map.PDF")
    ensures !HasSkippedExtension("https://mosmetro.ru/about")
  {
    var pdf := Lower("https://mosmetro.ru/files/Map.PDF");
    assert pdf[|pdf| - 4..] == ".pdf";
    assert HasSuffix(pdf, SkipExtensions[0]);
    var page := Lower("https://mosmetro.ru/about");
    assert page[|page| - 4..] == "bout";
    assert page[|page| - 5..] == "about";
  }

  // ---------------------------------------------------------------------------
  // Text cleaning
  // ---------------------------------------------------------------------------

  predicate IsVisible(c: char) { !IsSpace(c) }

  /** Every line trimmed, blank ones kept. */
  function TrimEach(lines: seq<string>): (trimmed: seq<string>)
    ensures |trimmed| == |lines|
    ensures forall k :: 0 <= k < |lines| ==> trimmed[k] == TrimSpace(lines[k])
  {
    seq(|lines|, k requires 0 <= k < |lines| => TrimSpace(lines[k]))
  }

  /** The loop of `cleanText`: each line trimmed, blank lines dropped. */
  function CleanLines(lines: seq<string>): (cleaned: seq<string>)
    ensures forall k :: 0 <= k < |cleaned| ==> cleaned[k] != [] && IsTrimmed(cleaned[k])
    ensures cleaned == NonEmpty(TrimEach(lines))
  {
    if lines == [] then []
    else
      var line := TrimSpace(lines[0]);
      assert TrimEach(lines)[1..] == TrimEach(lines[1..]);
      (if line == [] then [] else [line]) + CleanLines(lines[1..])
  }

  /** `cleanText`: the text's non-blank lines, trimmed and joined by one space. */
  function CleanText(text: string): (r: string)
    ensures NoneSatisfy(r, IsNewline)
    ensures IsTrimmed(r)
    ensures r == [] <==> AllSpace(text)
  {
    var lines := SplitWhere(text, IsNewline);
    var cleaned := CleanLines(lines);
    CleanTextShape(text);
    Join(cleaned, " ")
  }

  /** Trimming keeps every visible rune, in order. */
  lemma TrimSpaceKeepsVisible(s: string)
    ensures Filter(TrimSpace(s), IsVisible) == Filter(s, IsVisible)
  {
    var a, c := TrimSpaceParts(s);
    AllSpaceIsInvisible(a);
    AllSpaceIsInvisible(c);
    FilterAround(a, TrimSpace(s), c, IsVisible);
  }

  lemma FilterAround(a: string, r: string, c: string, p: char -> bool)
    requires Filter(a, p) == [] && Filter(c, p) == []
    ensures Filter(a + r + c, p) == Filter(r, p)
  {
    FilterAppend(a + r, c, p);
    FilterAppend(a, r, p);
  }

  lemma AllSpaceIsInvisible(s: string)
    requires AllSpace(s)
    ensures Filter(s, IsVisible) == []
  {
    FilterEmptyIffNone(s, IsVisible);
  }

  lemma {:induction false} CleanLinesKeepVisible(lines: seq<string>)
    ensures FilterEach(CleanLines(lines), IsVisible) == FilterEach(lines, IsVisible)
    decreases |lines|
  {
    if lines != [] {
      CleanLinesKeepVisible(lines[1..]);
      TrimSpaceKeepsVisible(lines[0]);
      CleanLinesFilterStep(lines);
    }
  }

  /** Unfolds one line of `CleanLines` under the visible-rune filter. */
  lemma CleanLinesFilterStep(lines: seq<string>)
    requires lines != []
    ensures FilterEach(CleanLines(lines), IsVisible)
         == Filter(TrimSpace(lines[0]), IsVisible) + FilterEach(CleanLines(lines[1..]), IsVisible)
  {
    var line := TrimSpace(lines[0]);
    var tail := CleanLines(lines[1..]);
    if line == [] {
      assert CleanLines(lines) == tail;
    } else {
      assert CleanLines(lines) == [line] + tail;
      assert ([line] + tail)[1..] == tail;
    }
  }

  lemma {:induction false} CleanLinesNoNewline(lines: seq<string>)
    requires forall k :: 0 <= k < |lines| ==> NoneSatisfy(lines[k], IsNewline)
    ensures forall k :: 0 <= k < |CleanLines(lines)| ==> NoneSatisfy(CleanLines(lines)[k], IsNewline)
    decreases |lines|
  {
    if lines != [] {
      CleanLinesNoNewline(lines[1..]);
      TrimKeepsNone(lines[0], IsNewline);
    }
  }

  /** Cleaning removes white space only: the visible runes are those of the input. */
  lemma CleanTextKeepsVisible(text: string)
    ensures Filter(CleanText(text), IsVisible) == Filter(text, IsVisible)
  {
    JoinedKeepVisible(text);
  }

  lemma CleanTextShape(text: string)
    ensures var r := Join(CleanLines(SplitWhere(text, IsNewline)), " ");
            NoneSatisfy(r, IsNewline) && IsTrimmed(r) && (r == [] <==> AllSpace(text))
  {
    var lines := SplitWhere(text, IsNewline);
    var cleaned := CleanLines(lines);
    JoinedNoNewline(lines);
    JoinedTrimmed(cleaned);
    JoinedEmptyIffAllSpace(text);
  }

  lemma JoinedNoNewline(lines: seq<string>)
    requires forall k :: 0 <= k < |lines| ==> NoneSatisfy(lines[k], IsNewline)
    ensures NoneSatisfy(Join(CleanLines(lines), " "), IsNewline)
  {
    CleanLinesNoNewline(lines);
    JoinNoneSatisfy(CleanLines(lines), " ", IsNewline);
  }

  lemma JoinedTrimmed(cleaned: seq<string>)
    requires forall k :: 0 <= k < |cleaned| ==> cleaned[k] != [] && IsTrimmed(cleaned[k])
    ensures IsTrimmed(Join(cleaned, " "))
  {
    if cleaned != [] {
      JoinEnds(cleaned, " ");
    }
  }

  /** The joined lines are empty iff they hold no visible rune (they are
      trimmed), iff the input holds none. */
  lemma JoinedEmptyIffAllSpace(text: string)
    ensures Join(CleanLines(SplitWhere(text, IsNewline)), " ") == [] <==> AllSpace(text)
  {
    var r := Join(CleanLines(SplitWhere(text, IsNewline)), " ");
    assert Filter(r, IsVisible) == Filter(text, IsVisible) by {
      JoinedKeepVisible(text);
    }
    JoinedTrimmed(CleanLines(SplitWhere(text, IsNewline)));
    FilterEmptyIffNone(r, IsVisible);
    FilterEmptyIffNone(text, IsVisible);
    assert NoneSatisfy(text, IsVisible) <==> AllSpace(text);
    if r != [] {
      assert IsVisible(r[0]);
    }
  }

  lemma JoinedKeepVisible(text: string)
    ensures Filter(Join(CleanLines(SplitWhere(text, IsNewline)), " "), IsVisible) == Filter(text, IsVisible)
  {
    var lines := SplitWhere(text, IsNewline);
    JoinSplitWhere(text, IsNewline, '\n');
    assert Filter(['\n'], IsVisible) == [];
    FilterJoin(lines, ['\n'], IsVisible);
    CleanLinesKeepVisible(lines);
    assert Filter(" ", IsVisible) == [];
    FilterJoin(CleanLines(lines), " ", IsVisible);
  }

  /** A text without line breaks is cleaned by trimming alone. */
  lemma CleanTextOneLine(text: string)
    requires NoneSatisfy(text, IsNewline)
    ensures CleanText(text) == TrimSpace(text)
  {
    SplitWhereNoSeparator(text, IsNewline);
    var line := TrimSpace(text);
    assert CleanLines([text]) == (if line == [] then [] else [line]) + CleanLines([]);
  }

  /** The first line break: the trimmed first line, if not blank, then one space
      before the rest cleaned, if that is not empty. With `CleanTextOneLine` this
      fixes `cleanText` on every input. */
  lemma CleanTextFirstLine(first: string, rest: string)
    requires NoneSatisfy(first, IsNewline)
    ensures CleanText(first + "\n" + rest)
         == if AllSpace(first) then CleanText(rest)
            else if AllSpace(rest) then TrimSpace(first)
            else TrimSpace(first) + " " + CleanText(rest)
  {
    var text := first + "\n" + rest;
    var tail := SplitWhere(rest, IsNewline);
    var line := TrimSpace(first);
    var cleanedRest := CleanLines(tail);
    var whole := CleanLines(SplitWhere(text, IsNewline));
    assert whole == (if line == [] then [] else [line]) + cleanedRest by {
      SplitWhereAtFirst(first, '\n', rest, IsNewline);
      assert SplitWhere(text, IsNewline) == [first] + tail;
      assert ([first] + tail)[1..] == tail;
    }
    assert CleanText(text) == Join(whole, " ");
    assert CleanText(rest) == Join(cleanedRest, " ");
    assert cleanedRest == [] <==> AllSpace(rest) by {
      JoinedEmptyIffAllSpace(rest);
    }
    JoinCleaned(line, cleanedRest, whole);
  }

  /** Joining the cleaned lines when a first line may be put in front. */
  lemma JoinCleaned(line: string, cleanedRest: seq<string>, whole: seq<string>)
    requires whole == (if line == [] then [] else [line]) + cleanedRest
    ensures Join(whole, " ")
         == if line == [] then Join(cleanedRest, " ")
            else if cleanedRest == [] then line
            else line + " " + Join(cleanedRest, " ")
  {
    if line != [] {
      JoinCons(line, cleanedRest, " ");
    } else {
      assert whole == cleanedRest;
    }
  }

  /** Cleaning a cleaned text changes nothing. */
  lemma CleanTextIdempotent(text: string)
    ensures CleanText(CleanText(text)) == CleanText(text)
  {
    var r := CleanText(text);
    var lines := SplitWhere(r, IsNewline);
    assert lines == [r] by {
      SplitWhereNoSeparator(r, IsNewline);
    }
    assert CleanLines(lines) == (if r == [] then [] else [r]) by {
      TrimSpaceOfTrimmed(r);
      assert CleanLines(lines) == (if TrimSpace(r) == [] then [] else [TrimSpace(r)]) + CleanLines([]);
    }
  }

  // ---------------------------------------------------------------------------
  // Page records
  // ---------------------------------------------------------------------------

  /** The shape every recorded page has. */
  predicate PageOk(p: PageData)
  {
    && p.text != []
    && IsTrimmed(p.text)
    && NoneSatisfy(p.text, IsNewline)
    && p.length == |Utf8.Encode(p.text)|
    && p.length >= |p.text|
  }

  /** The `html` callback: below the page limit, a page whose cleaned text is
      non-empty is appended, titled by its `<title>` or else by its URL.
      `titleText` is Colly's `e.ChildText("title")`, which already applies
      `strings.TrimSpace`, so a blank title arrives here as "". */
  function OnPage(pages: seq<PageData>, maxPages: int, url: string, titleText: string, domText: string)
    : (pages': seq<PageData>)
    ensures |pages'| == |pages| + 1 <==> |pages| < maxPages && !AllSpace(domText)
    ensures |pages'| == |pages| + 1 || pages' == pages
    ensures pages'[..|pages|] == pages
    ensures |pages'| > |pages| ==>
              var p := pages'[|pages|];
              && PageOk(p)
              && p.url == url
              && p.text == CleanText(domText)
              && (titleText != [] ==> p.title == titleText)
              && (titleText == [] ==> p.title == url)
  {
    if |pages| >= maxPages then pages
    else
      var title := if titleText == [] then url else titleText;
      var text := CleanText(domText);
      if text == [] then pages
      else pages + [PageData(url, title, text, |Utf8.Encode(text)|)]
  }

  /** One fetched page as the `html` callback sees it. */
  datatype Visit = Visit(url: string, titleText: string, domText: string)

  /** The `html` callback applied to a run of fetched pages, in order. */
  function RecordPages(pages: seq<PageData>, maxPages: int, visits: seq<Visit>): seq<PageData>
    decreases |visits|
  {
    if visits == [] then pages
    else
      var v := visits[0];
      RecordPages(OnPage(pages, maxPages, v.url, v.titleText, v.domText), maxPages, visits[1..])
  }

  /** How many visits carry a non-blank text. */
  function CountWithText(visits: seq<Visit>): nat
  {
    if visits == [] then 0
    else (if AllSpace(visits[0].domText) then 0 else 1) + CountWithText(visits[1..])
  }

  /** A crawl records, after the pages it already has, one well-formed page per
      visit with visible text, until it holds `maxPages` pages. */
  lemma {:induction false} RecordPagesBounded(pages: seq<PageData>, maxPages: int, visits: seq<Visit>)
    requires |pages| <= maxPages
    requires forall k :: 0 <= k < |pages| ==> PageOk(pages[k])
    ensures var r := RecordPages(pages, maxPages, visits);
            && |r| == |pages| + Min(maxPages - |pages|, CountWithText(visits))
            && r[..|pages|] == pages
            && forall k :: 0 <= k < |r| ==> PageOk(r[k])
    decreases |visits|
  {
    if visits != [] {
      var v := visits[0];
      var next := OnPage(pages, maxPages, v.url, v.titleText, v.domText);
      assert RecordPages(pages, maxPages, visits) == RecordPages(next, maxPages, visits[1..]);
      assert CountWithText(visits) == (if AllSpace(v.domText) then 0 else 1) + CountWithText(visits[1..]);
      OnPageKeepsPagesOk(pages, maxPages, v.url, v.titleText, v.domText);
      RecordPagesBounded(next, maxPages, visits[1..]);
      var r := RecordPages(next, maxPages, visits[1..]);
      assert r[..|pages|] == r[..|next|][..|pages|];
    }
  }

  /** One call of the `html` callback keeps every recorded page well formed. */
  lemma OnPageKeepsPagesOk(pages: seq<PageData>, maxPages: int, url: string, titleText: string, domText: string)
    requires forall k :: 0 <= k < |pages| ==> PageOk(pages[k])
    ensures var next := OnPage(pages, maxPages, url, titleText, domText);
            forall k :: 0 <= k < |next| ==> PageOk(next[k])
  {
    var next := OnPage(pages, maxPages, url, titleText, domText);
    forall k | 0 <= k < |next| ensures PageOk(next[k]) {
      if k < |pages| { assert next[k] == next[..|pages|][k]; }
    }
  }

  /** A crawl that starts full records nothing. */
  lemma {:induction false} RecordPagesAtLimit(pages: seq<PageData>, maxPages: int, visits: seq<Visit>)
    requires |pages| >= maxPages
    ensures RecordPages(pages, maxPages, visits) == pages
    decreases |visits|
  {
    if visits != [] {
      RecordPagesAtLimit(pages, maxPages, visits[1..]);
    }
  }

  // ---------------------------------------------------------------------------
  // Chunking
  // ---------------------------------------------------------------------------

  /** The chunks of one page's bytes from offset `from` on, numbered from `id`. */
  function PageChunks(url: string, title: string, bytes: seq<Utf8.byte>, from: nat, size: nat, id: int)
    : (cs: seq<Chunk>)
    requires size > 0
    ensures cs != [] <==> from < |bytes|
    ensures forall k :: 0 <= k < |cs| ==> cs[k].id == id + k
    decreases |bytes| - from
  {
    if from >= |bytes| then []
    else
      var end := Min(from + size, |bytes|);
      [Chunk(id, url, title, bytes[from..end], from, end)]
        + PageChunks(url, title, bytes, from + size, size, id + 1)
  }

  /** `c` is a non-empty run of at most `size` of the `bytes` of the page with
      this URL and title. */
  predicate ChunkWithin(c: Chunk, url: string, title: string, bytes: seq<Utf8.byte>, size: nat)
  {
    && c.url == url && c.title == title
    && 0 <= c.startPos < c.endPos <= |bytes|
    && c.endPos - c.startPos <= size
    && c.text == bytes[c.startPos..c.endPos]
  }

  /** A page's chunks tile its bytes from `from` to the end: each is a piece of
      the page, every one but the last is exactly `size` bytes long, and each
      starts where the one before it ends. */
  lemma {:induction false} PageChunksShape(url: string, title: string, bytes: seq<Utf8.byte>, from: nat, size: nat, id: int)
    requires size > 0
    ensures var cs := PageChunks(url, title, bytes, from, size, id);
            && (cs != [] ==> cs[0].startPos == from && cs[|cs| - 1].endPos == |bytes|)
            && (forall k :: 0 <= k < |cs| ==> ChunkWithin(cs[k], url, title, bytes, size))
            && (forall k :: 0 <= k < |cs| - 1 ==>
                  cs[k].endPos - cs[k].startPos == size && cs[k + 1].startPos == cs[k].endPos)
    decreases |bytes| - from
  {
    if from < |bytes| {
      PageChunksShape(url, title, bytes, from + size, size, id + 1);
      var cs := PageChunks(url, title, bytes, from, size, id);
      var rest := PageChunks(url, title, bytes, from + size, size, id + 1);
      assert cs[1..] == rest;
      forall k | 0 <= k < |cs| ensures ChunkWithin(cs[k], url, title, bytes, size) {
        if k > 0 { assert cs[k] == rest[k - 1]; }
      }
      forall k | 0 <= k < |cs| - 1
        ensures cs[k].endPos - cs[k].startPos == size && cs[k + 1].startPos == cs[k].endPos
      {
        if k > 0 { assert cs[k] == rest[k - 1] && cs[k + 1] == rest[k]; }
      }
    }
  }

  /** The chunks of every page, in page order, numbered from 0 across pages. */
  function AllChunks(pages: seq<PageData>, size: nat): (cs: seq<Chunk>)
    requires size > 0
    ensures forall k :: 0 <= k < |cs| ==> cs[k].id == k
  {
    if pages == [] then []
    else
      var before := AllChunks(pages[..|pages| - 1], size);
      var p := pages[|pages| - 1];
      before + PageChunks(p.url, p.title, Utf8.Encode(p.text), 0, size, |before|)
  }

  /** The chunking loop of `SaveChunks`: byte offsets `i`, `i + chunkSize`, ... of
      each page's text, with one running id across pages. A chunk size of 0
      never advances and a negative one panics, so a positive size is required. */
  method SaveChunks(pages: seq<PageData>, chunkSize: int) returns (chunks: seq<Chunk>)
    requires chunkSize > 0
    ensures chunks == AllChunks(pages, chunkSize)
  {
    chunks := [];
    var p := 0;
    while p < |pages|
      invariant 0 <= p <= |pages|
      invariant chunks == AllChunks(pages[..p], chunkSize)
    {
      assert pages[..p + 1][..p] == pages[..p];
      chunks := ChunkPage(chunks, pages[p], chunkSize);
      p := p + 1;
    }
    assert pages[..p] == pages;
  }

  /** The inner loop of `SaveChunks`: appends one page's chunks, numbered on
      from the chunks already made. */
  method ChunkPage(chunks: seq<Chunk>, page: PageData, chunkSize: int) returns (chunks': seq<Chunk>)
    requires chunkSize > 0
    ensures chunks' == chunks + PageChunks(page.url, page.title, Utf8.Encode(page.text), 0, chunkSize, |chunks|)
  {
    var text := Utf8.Encode(page.text);
    chunks' := chunks;
    var chunkID := |chunks|;
    var i := 0;
    while i < |text|
      invariant i >= 0
      invariant chunkID == |chunks'|
      invariant chunks' + PageChunks(page.url, page.title, text, i, chunkSize, chunkID)
                == chunks + PageChunks(page.url, page.title, text, 0, chunkSize, |chunks|)
      decreases |text| - i
    {
      var end := i + chunkSize;
      if end > |text| {
        end := |text|;
      }
      var chunk := Chunk(chunkID, page.url, page.title, text[i..end], i, end);
      assert chunks' + PageChunks(page.url, page.title, text, i, chunkSize, chunkID)
             == (chunks' + [chunk]) + PageChunks(page.url, page.title, text, i + chunkSize, chunkSize, chunkID + 1) by {
        PageChunksUnfold(chunks', page.url, page.title, text, i, chunkSize, chunkID);
      }
      chunks' := chunks' + [chunk];
      chunkID := chunkID + 1;
      i := i + chunkSize;
    }
  }

  /** One turn of the chunking loop: the chunk at `from`, then the rest. */
  lemma PageChunksUnfold(before: seq<Chunk>, url: string, title: string, bytes: seq<Utf8.byte>, from: nat, size: nat, id: int)
    requires size > 0 && from < |bytes|
    ensures var end := Min(from + size, |bytes|);
            before + PageChunks(url, title, bytes, from, size, id)
            == (before + [Chunk(id, url, title, bytes[from..end], from, end)])
               + PageChunks(url, title, bytes, from + size, size, id + 1)
  {
  }

  /** The bytes of a run of chunks, glued together. */
  function ChunkBytes(cs: seq<Chunk>): seq<Utf8.byte>
  {
    if cs == [] then [] else cs[0].text + ChunkBytes(cs[1..])
  }

  /** The UTF-8 bytes of the pages' texts, one after another. */
  function PagesBytes(pages: seq<PageData>): seq<Utf8.byte>
  {
    if pages == [] then []
    else PagesBytes(pages[..|pages| - 1]) + Utf8.Encode(pages[|pages| - 1].text)
  }

  lemma {:induction false} ChunkBytesAppend(a: seq<Chunk>, b: seq<Chunk>)
    ensures ChunkBytes(a + b) == ChunkBytes(a) + ChunkBytes(b)
    decreases |a|
  {
    if a == [] {
      assert a + b == b;
    } else {
      assert (a + b)[1..] == a[1..] + b;
      ChunkBytesAppend(a[1..], b);
    }
  }

  /** A page's chunks, glued together, are its bytes from `from` on. */
  lemma {:induction false} PageChunksCover(url: string, title: string, bytes: seq<Utf8.byte>, from: nat, size: nat, id: int)
    requires size > 0 && from <= |bytes|
    ensures ChunkBytes(PageChunks(url, title, bytes, from, size, id)) == bytes[from..]
    decreases |bytes| - from
  {
    if from < |bytes| {
      var end := Min(from + size, |bytes|);
      var cs := PageChunks(url, title, bytes, from, size, id);
      if from + size <= |bytes| {
        PageChunksCover(url, title, bytes, from + size, size, id + 1);
        assert bytes[from..] == bytes[from..end] + bytes[from + size..];
      } else {
        assert PageChunks(url, title, bytes, from + size, size, id + 1) == [];
        assert cs[1..] == [];
      }
    }
  }

  /** Chunking loses and repeats nothing: the chunks, glued together, are the
      bytes of all pages in order. */
  lemma {:induction false} ChunksCoverPages(pages: seq<PageData>, size: nat)
    requires size > 0
    ensures ChunkBytes(AllChunks(pages, size)) == PagesBytes(pages)
    decreases |pages|
  {
    if pages != [] {
      var init := pages[..|pages| - 1];
      var p := pages[|pages| - 1];
      var bytes := Utf8.Encode(p.text);
      var before := AllChunks(init, size);
      var last := PageChunks(p.url, p.title, bytes, 0, size, |before|);
      assert ChunkBytes(last) == bytes by {
        PageChunksCover(p.url, p.title, bytes, 0, size, |before|);
        assert bytes[0..] == bytes;
      }
      ChunksCoverPages(init, size);
      ChunkBytesAppend(before, last);
    }
  }

  /** Every chunk in `cs` is a piece of one of `pages`. */
  predicate FromPages(cs: seq<Chunk>, pages: seq<PageData>, size: nat)
  {
    forall k :: 0 <= k < |cs| ==> exists j :: 0 <= j < |pages| && ChunkOf(cs[k], pages[j], size)
  }

  /** Every chunk belongs to one page: it carries that page's URL and title and
      a non-empty byte range of at most `size` bytes of its text. */
  lemma {:induction false} ChunksComeFromPages(pages: seq<PageData>, size: nat)
    requires size > 0
    ensures FromPages(AllChunks(pages, size), pages, size)
    decreases |pages|
  {
    if pages != [] {
      var init := pages[..|pages| - 1];
      var p := pages[|pages| - 1];
      var before := AllChunks(init, size);
      var last := PageChunks(p.url, p.title, Utf8.Encode(p.text), 0, size, |before|);
      ChunksComeFromPages(init, size);
      PageChunksShape(p.url, p.title, Utf8.Encode(p.text), 0, size, |before|);
      var cs := AllChunks(pages, size);
      forall k | 0 <= k < |cs|
        ensures exists j :: 0 <= j < |pages| && ChunkOf(cs[k], pages[j], size)
      {
        if k < |before| {
          assert cs[k] == before[k];
          var j :| 0 <= j < |init| && ChunkOf(before[k], init[j], size);
          assert ChunkOf(cs[k], pages[j], size);
        } else {
          assert cs[k] == last[k - |before|];
          assert ChunkOf(cs[k], pages[|pages| - 1], size);
        }
      }
    }
  }

  /** `c` is a piece of page `p` at most `size` bytes long. */
  predicate ChunkOf(c: Chunk, p: PageData, size: nat)
  {
    ChunkWithin(c, p.url, p.title, Utf8.Encode(p.text), size)
  }

  /** Chunk boundaries are byte offsets, so a boundary can fall inside a rune:
      the first one-byte chunk of "ж" is not valid UTF-8 on its own. */
  lemma ChunkCanSplitRune()
    ensures var cs := AllChunks([PageData("u", "t", "ж", 2)], 1);
            |cs| == 2 && Utf8.Decode(cs[0].text).None?
  {
    var bytes := Utf8.Encode("ж");
    assert bytes == Utf8.EncodeRune('ж') + Utf8.Encode([]);
    assert bytes == [0xD0, 0xB6];
    var pages := [PageData("u", "t", "ж", 2)];
    assert pages[..0] == [];
    var cs := AllChunks(pages, 1);
    assert cs == [] + PageChunks("u", "t", bytes, 0, 1, 0);
    assert cs[0].text == [0xD0];
  }
}
