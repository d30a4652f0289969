/**
 * The studio's homepage editor: a `key: value` header that sets the blog's
 * title, favicon and meta tags, and a body that becomes the homepage content.
 *
 * Unlike the post editor this parser strips no tags and has no guard for a
 * line without a colon: `item[1]` raises `IndexError`, which the view turns
 * into a single "One of the header options is invalid" message. A boolean
 * `favicon` value reaches `len(value)` and raises `TypeError`, which the view
 * does not catch.
 */
module Homepage {
  import opened Wrappers
  import opened Text
  import opened Records
  import opened PostHeader

  /** The header names the homepage editor knows. */
  datatype HomeField = HomeTitle | Favicon | HomeMetaDescription | HomeMetaImage | HomeUnknown

  /** The header name of each known field. */
  function HomeFieldName(f: HomeField): string
    requires f != HomeUnknown
  {
    match f
    case HomeTitle => "title"
    case Favicon => "favicon"
    case HomeMetaDescription => "meta_description"
    case HomeMetaImage => "meta_image"
  }

  /** The field a header name selects; a name no field has is unknown. */
  function HomeFieldFor(name: string): (f: HomeField)
    ensures f != HomeUnknown ==> HomeFieldName(f) == name
  {
    if name == "title" then HomeTitle
    else if name == "favicon" then Favicon
    else if name == "meta_description" then HomeMetaDescription
    else if name == "meta_image" then HomeMetaImage
    else HomeUnknown
  }

  /** Every known field is reached by its own name, and only by it. */
  lemma HomeFieldRoundTrip(f: HomeField, name: string)
    requires f != HomeUnknown
    ensures HomeFieldFor(HomeFieldName(f)) == f
    ensures HomeFieldFor(name) == f <==> name == HomeFieldName(f)
  {
  }

  /** A name is unknown exactly when no field carries it. */
  lemma HomeUnknownIffUnnamed(name: string)
    ensures HomeFieldFor(name) == HomeUnknown <==>
      forall f: HomeField :: f != HomeUnknown ==> HomeFieldName(f) != name
  {
    if HomeFieldFor(name) != HomeUnknown {
      HomeFieldRoundTrip(HomeFieldFor(name), name);
    }
  }

  /** A homepage header line once split: field, name and coerced value. */
  datatype HomeLine = HomeLine(field: HomeField, name: string, value: Value)

  /** The two exceptions that end the homepage parse. */
  datatype Halt =
    | MissingColon    // `item[1]` on a line without a colon: IndexError
    | FaviconNotText  // `len(True)`: TypeError

  /** `item.split(':', 1)`, then `item[0].strip()` and `item[1].strip()`. */
  function ReadHomeLine(line: string): (r: Result<HomeLine, Halt>)
    ensures r.Err? <==> ':' !in line
    ensures r.Err? ==> r.error == MissingColon
  {
    match SplitOnce(line, ':')
    case None => Err(MissingColon)
    case Some((a, b)) =>
      var name := Strip(a);
      Ok(HomeLine(HomeFieldFor(name), name, Coerce(Strip(b))))
  }

  /** Every line read, in order. */
  function ReadHomeLines(lines: seq<string>): (r: seq<Result<HomeLine, Halt>>)
    ensures |r| == |lines|
    ensures forall i :: 0 <= i < |r| ==> r[i] == ReadHomeLine(lines[i])
  {
    seq(|lines|, i requires 0 <= i < |lines| => ReadHomeLine(lines[i]))
  }

  /** A warning collected while reading the homepage header. */
  datatype HomeWarning = FaviconTooLong | UnknownHomeOption(name: string)

  function HomeWarningText(w: HomeWarning): string {
    match w
    case FaviconTooLong => "Favicon is too long. Use an emoji."
    case UnknownHomeOption(name) => name + " is an unrecognised header option"
  }

  /** The blog columns the header writes, with the title still a `Value`. */
  datatype Page = Page(
    title: Value, favicon: string, metaDescription: string, metaImage: string,
    warnings: seq<HomeWarning>)

  /** A favicon is kept only when shorter than this. */
  const FaviconLimit := 100

  /** One line applied to the page. */
  function ApplyHomeLine(p: Page, l: HomeLine): (r: Result<Page, Halt>)
    ensures r.Err? <==> l.field == Favicon && l.value.Bool?
    ensures r.Ok? ==> |p.warnings| <= |r.value.warnings| <= |p.warnings| + 1
    ensures r.Ok? && l.field != Favicon ==> r.value.favicon == p.favicon
    ensures r.Ok? && l.field == Favicon ==>
      r.value.favicon == (if |l.value.s| < FaviconLimit then l.value.s else p.favicon)
  {
    match l.field
    case HomeTitle => Ok(p.(title := l.value))
    case Favicon =>
      if l.value.Bool? then Err(FaviconNotText)
      else if |l.value.s| < FaviconLimit then Ok(p.(favicon := l.value.s))
      else Ok(p.(warnings := p.warnings + [FaviconTooLong]))
    case HomeMetaDescription => Ok(p.(metaDescription := ValueText(l.value)))
    case HomeMetaImage => Ok(p.(metaImage := ValueText(l.value)))
    case HomeUnknown => Ok(p.(warnings := p.warnings + [UnknownHomeOption(l.name)]))
  }

  /** The line halts the parse: no colon, or a boolean favicon. */
  predicate Halts(r: Result<HomeLine, Halt>) {
    match r
    case Err(_) => true
    case Ok(l) => l.field == Favicon && l.value.Bool?
  }

  /** The halt a halting line raises. */
  function HaltOf(r: Result<HomeLine, Halt>): Halt
    requires Halts(r)
  {
    match r
    case Err(h) => h
    case Ok(_) => FaviconNotText
  }

  /** The line adds a warning: an unknown name, or a favicon of 100
      characters or more. */
  predicate Warns(r: Result<HomeLine, Halt>) {
    match r
    case Err(_) => false
    case Ok(l) =>
      || l.field == HomeUnknown
      || (l.field == Favicon && l.value.Str? && |l.value.s| >= FaviconLimit)
  }

  /** The lines in order; the first exception ends the parse. */
  function ApplyHomeLines(p: Page, lines: seq<Result<HomeLine, Halt>>): (r: Result<Page, Halt>)
    decreases |lines|
  {
    if |lines| == 0 then Ok(p)
    else
      match lines[0]
      case Err(h) => Err(h)
      case Ok(l) =>
        match ApplyHomeLine(p, l)
        case Err(h) => Err(h)
        case Ok(p') => ApplyHomeLines(p', lines[1..])
  }

  /** The first line that halts, if any. */
  function FirstHalt(lines: seq<Result<HomeLine, Halt>>): (r: Option<nat>)
    ensures r.None? <==> forall i :: 0 <= i < |lines| ==> !Halts(lines[i])
    ensures r.Some? ==> r.value < |lines| && Halts(lines[r.value])
    ensures r.Some? ==> forall i :: 0 <= i < r.value ==> !Halts(lines[i])
    decreases |lines|
  {
    if |lines| == 0 then None
    else if Halts(lines[0]) then Some(0)
    else
      assert forall i :: 1 <= i < |lines| ==> lines[i] == lines[1..][i - 1];
      match FirstHalt(lines[1..])
      case None => None
      case Some(k) => Some(k + 1)
  }

  /** The number of lines that add a warning. */
  function CountWarns(lines: seq<Result<HomeLine, Halt>>): nat
    decreases |lines|
  {
    if |lines| == 0 then 0 else (if Warns(lines[0]) then 1 else 0) + CountWarns(lines[1..])
  }

  /** The parse fails exactly when some line halts, with the halt of the
      first such line; otherwise every warning line adds one warning. */
  lemma {:induction false} HomeLinesOutcome(p: Page, lines: seq<Result<HomeLine, Halt>>)
    ensures ApplyHomeLines(p, lines).Err? <==> FirstHalt(lines).Some?
    ensures ApplyHomeLines(p, lines).Err? ==>
      ApplyHomeLines(p, lines).error == HaltOf(lines[FirstHalt(lines).value])
    ensures ApplyHomeLines(p, lines).Ok? ==>
      |ApplyHomeLines(p, lines).value.warnings| == |p.warnings| + CountWarns(lines)
    decreases |lines|
  {
    if |lines| > 0 && !Halts(lines[0]) {
      var l := lines[0].value;
      var p' := ApplyHomeLine(p, l).value;
      HomeLinesOutcome(p', lines[1..]);
      assert |p'.warnings| == |p.warnings| + (if Warns(lines[0]) then 1 else 0);
    }
  }

  /** The favicon stays short, whatever the header says. */
  lemma {:induction false} FaviconBounded(p: Page, lines: seq<Result<HomeLine, Halt>>)
    requires |p.favicon| < FaviconLimit
    requires ApplyHomeLines(p, lines).Ok?
    ensures |ApplyHomeLines(p, lines).value.favicon| < FaviconLimit
    decreases |lines|
  {
    if |lines| > 0 {
      var l := lines[0].value;
      FaviconBounded(ApplyHomeLine(p, l).value, lines[1..]);
    }
  }

  /** The title survives a header with no `title:` line. */
  lemma {:induction false} TitleKeptUnlessNamed(p: Page, lines: seq<Result<HomeLine, Halt>>)
    requires ApplyHomeLines(p, lines).Ok?
    requires forall i :: 0 <= i < |lines| ==> lines[i].Ok? ==> lines[i].value.field != HomeTitle
    ensures ApplyHomeLines(p, lines).value.title == p.title
    decreases |lines|
  {
    if |lines| > 0 {
      var l := lines[0].value;
      TitleKeptUnlessNamed(ApplyHomeLine(p, l).value, lines[1..]);
    }
  }

  // ---------------------------------------------------------------- the view

  const MaxHomepageContent := 100000
  const InvalidOptionMessage := "One of the header options is invalid"

  datatype HomeOutcome =
    | NothingPosted
    | HomeRefused(messages: seq<string>)
    | HomeRejected(messages: seq<string>)
    | HomeCrashed
    | HomeSaved(blog: Blog, warnings: seq<HomeWarning>)

  /** The reset block: favicon and meta tags are cleared, the title is kept. */
  function HomeStart(b: Blog): Page {
    Page(Str(b.title), "", "", "", [])
  }

  /** The homepage editor's default title. */
  const DefaultBlogTitle := "My blog"

  /** The homepage header's non-empty lines, read. */
  function HomeHeader(header: string): seq<Result<HomeLine, Halt>> {
    ReadHomeLines(HeaderLines(header))
  }

  /** The `studio` view's POST branch around `parse_raw_homepage`. */
  function SaveHomepage(b: Blog, isPost: bool, header: string, body: string): (r: HomeOutcome)
    ensures !isPost || header == "" <==> r == NothingPosted
    ensures isPost && header != "" && |body| > MaxHomepageContent ==> r == HomeRefused([TooLongMessage])
    ensures r.HomeRejected? ==> r.messages == [InvalidOptionMessage]
    ensures r.HomeSaved? ==>
      && |body| <= MaxHomepageContent
      && r.blog.content == body
      && r.blog.title != ""
      && |r.blog.favicon| < FaviconLimit
      && r.blog.(title := b.title, favicon := b.favicon, metaDescription := b.metaDescription,
                  metaImage := b.metaImage, content := b.content) == b
  {
    if !isPost || header == "" then NothingPosted
    else if |body| > MaxHomepageContent then HomeRefused([TooLongMessage])
    else
      var lines := HomeHeader(header);
      match ApplyHomeLines(HomeStart(b), lines)
      case Err(MissingColon) => HomeRejected([InvalidOptionMessage])
      case Err(FaviconNotText) => HomeCrashed
      case Ok(p) =>
        FaviconBounded(HomeStart(b), lines);
        HomeSaved(
          b.(title := TitleOr(p.title, DefaultBlogTitle), favicon := p.favicon,
             metaDescription := p.metaDescription, metaImage := p.metaImage, content := body),
          p.warnings)
  }

  /** The homepage is saved exactly when the request posts a header, the body
      is within the limit, and no line halts; the warnings are one per
      warning line. */
  lemma HomepageSavedIff(b: Blog, header: string, body: string)
    ensures SaveHomepage(b, true, header, body).HomeSaved? <==>
      && header != "" && |body| <= MaxHomepageContent
      && forall i :: 0 <= i < |HomeHeader(header)| ==> !Halts(HomeHeader(header)[i])
    ensures SaveHomepage(b, true, header, body).HomeSaved? ==>
      |SaveHomepage(b, true, header, body).warnings| == CountWarns(HomeHeader(header))
  {
    HomeLinesOutcome(HomeStart(b), HomeHeader(header));
  }

  /** A header whose first halting line has no colon loses every warning and
      shows the one "invalid option" message; one whose first halting line
      sets a boolean favicon crashes the view. */
  lemma HomepageHalts(b: Blog, header: string, body: string)
    requires header != "" && |body| <= MaxHomepageContent
    requires FirstHalt(HomeHeader(header)).Some?
    ensures var k := FirstHalt(HomeHeader(header)).value;
      var line := HeaderLines(header)[k];
      && (':' !in line ==> SaveHomepage(b, true, header, body) == HomeRejected([InvalidOptionMessage]))
      && (':' in line ==> SaveHomepage(b, true, header, body) == HomeCrashed)
  {
    HomeLinesOutcome(HomeStart(b), HomeHeader(header));
  }

  /** Without a `title:` line the blog keeps its title unless it was empty. */
  lemma HomepageTitleKept(b: Blog, header: string, body: string)
    requires SaveHomepage(b, true, header, body).HomeSaved?
    requires forall i :: 0 <= i < |HomeHeader(header)| ==>
      HomeHeader(header)[i].Ok? ==> HomeHeader(header)[i].value.field != HomeTitle
    ensures SaveHomepage(b, true, header, body).blog.title == (if b.title == "" then "My blog" else b.title)
  {
    TitleKeptUnlessNamed(HomeStart(b), HomeHeader(header));
  }
}
