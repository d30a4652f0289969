/**
 * The studio's post editor: the `key: value` header block that sets a post's
 * metadata, the reset block that runs before it, the defaults applied after
 * it, and the save path that ends in `unique_slug`.
 *
 * A header value that reads `true` or `false` in any case becomes a Python
 * boolean before dispatch; a boolean that reaches a setter expecting text
 * raises, and the editor then reports a "Header attribute error" and saves
 * nothing.
 */
module PostHeader {
  import opened Wrappers
  import opened Text
  import opened Records
  import opened Slugs

  /** A header value after coercion: Python's `str` or `bool`. */
  datatype Value = Str(s: string) | Bool(b: bool)

  /** `True`/`False` become booleans whatever their case; other text stays. */
  function Coerce(v: string): (r: Value)
    ensures r.Bool? <==> Lower(v) == "true" || Lower(v) == "false"
    ensures r.Bool? ==> (r.b <==> Lower(v) == "true")
    ensures r.Str? ==> r.s == v
  {
    if Lower(v) == "true" then Bool(true)
    else if Lower(v) == "false" then Bool(false)
    else Str(v)
  }

  /** Coercion loses nothing but case: the text a value is stored as reads
      the same ignoring case, and coerces back to the same value. */
  lemma CoerceRoundTrip(v: string)
    ensures EqualsIgnoreCase(ValueText(Coerce(v)), v)
    ensures Coerce(ValueText(Coerce(v))) == Coerce(v)
  {
    assert Lower("True") == "true";
    assert Lower("False") == "false";
  }

  /** Python truthiness. */
  predicate Truthy(v: Value) {
    match v
    case Str(s) => s != ""
    case Bool(b) => b
  }

  /** What a text column holds once a value is written to it: `str(value)`. */
  function ValueText(v: Value): string {
    match v
    case Str(s) => s
    case Bool(b) => BoolToString(b)
  }

  /** Tags are stripped, then split on the first colon; a line without a colon
      is a name with the empty value. */
  function SplitHeaderLine(line: string): (r: (string, Value))
    ensures ':' !in StripTags(line) ==> r == (Strip(StripTags(line)), Str(""))
    ensures ':' in StripTags(line) ==>
      exists a, b :: StripTags(line) == a + [':'] + b && ':' !in a
                     && r == (Strip(a), Coerce(Strip(b)))
  {
    match SplitOnce(StripTags(line), ':')
    case None => (Strip(StripTags(line)), Str(""))
    case Some((a, b)) => (Strip(a), Coerce(Strip(b)))
  }

  // ---------------------------------------------------------------- tags

  /** Keeps the first occurrence of each entry, in order: the loop
      `if t not in tags: tags.append(t)`. */
  function Dedup(xs: seq<string>): seq<string> {
    if |xs| == 0 then []
    else
      var acc := Dedup(xs[..|xs| - 1]);
      if xs[|xs| - 1] in acc then acc else acc + [xs[|xs| - 1]]
  }

  predicate NoDuplicates(xs: seq<string>) {
    forall i, j :: 0 <= i < j < |xs| ==> xs[i] != xs[j]
  }

  function FirstIndex(xs: seq<string>, x: string): (r: nat)
    requires x in xs
    ensures r < |xs| && xs[r] == x && x !in xs[..r]
  {
    if xs[0] == x then 0
    else
      var k := FirstIndex(xs[1..], x);
      assert xs[..k + 1] == [xs[0]] + xs[1..][..k];
      k + 1
  }

  lemma FirstIndexPrefix(xs: seq<string>, n: nat, x: string)
    requires n <= |xs| && x in xs[..n]
    ensures x in xs && FirstIndex(xs, x) == FirstIndex(xs[..n], x)
  {
    var k := FirstIndex(xs[..n], x);
    var m := FirstIndex(xs, x);
    assert xs[..k] == xs[..n][..k];
    assert m <= k;
    assert xs[..n][m] == x;
  }

  /** Deduplication keeps every entry once, drops nothing else, and orders the
      entries by where each first appears. */
  lemma {:induction false} DedupSpec(xs: seq<string>)
    ensures NoDuplicates(Dedup(xs))
    ensures forall x :: x in Dedup(xs) <==> x in xs
    ensures forall i, j :: 0 <= i < j < |Dedup(xs)| ==>
      FirstIndex(xs, Dedup(xs)[i]) < FirstIndex(xs, Dedup(xs)[j])
    decreases |xs|
  {
    if |xs| > 0 {
      var init := xs[..|xs| - 1];
      var last := xs[|xs| - 1];
      var acc := Dedup(init);
      DedupSpec(init);
      assert xs == init + [last];
      forall x | x in acc ensures x in xs && FirstIndex(xs, x) == FirstIndex(init, x) {
        FirstIndexPrefix(xs, |xs| - 1, x);
      }
      if last !in acc {
        assert FirstIndex(xs, last) == |xs| - 1;
        var r := acc + [last];
        forall i, j | 0 <= i < j < |r|
          ensures FirstIndex(xs, r[i]) < FirstIndex(xs, r[j])
        {
          if j < |acc| {
            assert r[i] == acc[i] && r[j] == acc[j];
          } else {
            assert r[i] == acc[i];
          }
        }
      }
    }
  }

  /** The `tags:`/`tools:` setter: comma-split, stripped, empties dropped,
      duplicates removed keeping first occurrences. */
  function TagList(value: string): seq<string> {
    Dedup(CommaList(value))
  }

  /** The tag list holds each non-empty stripped entry exactly once, ordered
      by first appearance. */
  lemma TagListSpec(value: string)
    ensures NoDuplicates(TagList(value))
    ensures forall x :: x in TagList(value) <==> x in CommaList(value)
    ensures forall i, j :: 0 <= i < j < |TagList(value)| ==>
      TagList(value)[i] in CommaList(value) && TagList(value)[j] in CommaList(value)
      && FirstIndex(CommaList(value), TagList(value)[i])
        < FirstIndex(CommaList(value), TagList(value)[j])
  {
    var entries := CommaList(value);
    assert TagList(value) == Dedup(entries);
    DedupSpec(entries);
  }

  // ---------------------------------------------------------------- one line

  /** Calls the editor cannot make in Dafny: `timezone.now()`, the local-time
      `datetime.fromisoformat` conversion to UTC, and `json.loads` on a
      `media_urls` value. */
  datatype Env = Env(
    now: int,
    parseDate: string -> Option<int>,
    parseJson: string -> Option<seq<string>>)

  /** The editor's state while it reads the header: the post, the title and
      the `link` value (both may still be booleans), and the warnings. */
  datatype Draft = Draft(post: Post, title: Value, link: Value, warnings: seq<Warning>)

  /** The setter table of the editor, one entry per recognised header name. */
  datatype Setter =
    | Title | ShortDescription | Link | Alias | PublishedDate | Tags | Tools
    | GithubUrl | CommentsEnabled | MediaUrls | MakeDiscoverable | IsPage
    | ClassName | CanonicalUrl | MetaDescription | MetaImage | Unrecognised

  /** The header name that selects each setter. */
  function SetterName(s: Setter): string {
    match s
    case Title => "title"
    case ShortDescription => "short_description"
    case Link => "link"
    case Alias => "alias"
    case PublishedDate => "published_date"
    case Tags => "tags"
    case Tools => "tools"
    case GithubUrl => "github_url"
    case CommentsEnabled => "comments_enabled"
    case MediaUrls => "media_urls"
    case MakeDiscoverable => "make_discoverable"
    case IsPage => "is_page"
    case ClassName => "class_name"
    case CanonicalUrl => "canonical_url"
    case MetaDescription => "meta_description"
    case MetaImage => "meta_image"
    case Unrecognised => ""
  }

  /** The dispatch on the exact header name. */
  function SetterFor(name: string): (s: Setter)
    ensures s != Unrecognised ==> SetterName(s) == name
  {
    if name == "title" then Title
    else if name == "short_description" then ShortDescription
    else if name == "link" then Link
    else if name == "alias" then Alias
    else if name == "published_date" then PublishedDate
    else if name == "tags" then Tags
    else if name == "tools" then Tools
    else if name == "github_url" then GithubUrl
    else if name == "comments_enabled" then CommentsEnabled
    else if name == "media_urls" then MediaUrls
    else if name == "make_discoverable" then MakeDiscoverable
    else if name == "is_page" then IsPage
    else if name == "class_name" then ClassName
    else if name == "canonical_url" then CanonicalUrl
    else if name == "meta_description" then MetaDescription
    else if name == "meta_image" then MetaImage
    else Unrecognised
  }

  /** Every setter is reached by its own name, so the table has no dead entry. */
  lemma SetterRoundTrip(s: Setter)
    requires s != Unrecognised
    ensures SetterFor(SetterName(s)) == s
  {
    if s == Title || s == ShortDescription || s == Link || s == Alias {
      RoundTripTitleToAlias(s);
    } else if s == PublishedDate || s == Tags || s == Tools || s == GithubUrl {
      RoundTripDateToGithub(s);
    } else if s == CommentsEnabled || s == MediaUrls || s == MakeDiscoverable || s == IsPage {
      RoundTripCommentsToPage(s);
    } else {
      RoundTripClassToImage(s);
    }
  }

  lemma RoundTripTitleToAlias(s: Setter)
    requires s == Title || s == ShortDescription || s == Link || s == Alias
    ensures SetterFor(SetterName(s)) == s
  {
  }

  lemma RoundTripDateToGithub(s: Setter)
    requires s == PublishedDate || s == Tags || s == Tools || s == GithubUrl
    ensures SetterFor(SetterName(s)) == s
  {
  }

  lemma RoundTripCommentsToPage(s: Setter)
    requires s == CommentsEnabled || s == MediaUrls || s == MakeDiscoverable || s == IsPage
    ensures SetterFor(SetterName(s)) == s
  {
  }

  lemma RoundTripClassToImage(s: Setter)
    requires s == ClassName || s == CanonicalUrl || s == MetaDescription || s == MetaImage
    ensures SetterFor(SetterName(s)) == s
  {
  }

  /** A warning the editor collects without stopping. */
  datatype Warning =
    | NeedsBoolean(name: string)
    | BadDate
    | BadMediaUrls
    | UnknownOption(name: string)

  /** The text the editor shows for each warning. */
  function WarningText(w: Warning): string {
    match w
    case NeedsBoolean(name) => name + " needs to be \"true\" or \"false\""
    case BadDate => "Bad date format. Use YYYY-MM-DD HH:MM"
    case BadMediaUrls => "Invalid media_urls format"
    case UnknownOption(name) => name + " is an unrecognised header option"
  }

  /** Why the header was rejected: a setter raised on a boolean, or the `link`
      value was a boolean when the slug was built from it. */
  datatype Cause = SetterRaised(setter: Setter) | LinkNotText

  /** A rejected header: the warnings collected so far and the cause. */
  datatype Failure = Failure(warnings: seq<Warning>, cause: Cause)

  const HeaderErrorPrefix := "Header attribute error - your post has not been saved. Error: "

  /** The setter raises on this value: a boolean reaching `value[:100]`,
      `value.split(',')` or `json.loads(value)`. */
  predicate Raises(s: Setter, v: Value) {
    || ((s == ShortDescription || s == Tags || s == Tools) && v.Bool?)
    || (s == MediaUrls && v == Bool(true))
  }

  /** The Python message of the exception a raising setter throws. */
  function RaiseDetail(c: Cause): string {
    match c
    case LinkNotText => "'bool' object has no attribute 'lower'"
    case SetterRaised(s) =>
      if s == ShortDescription then "'bool' object is not subscriptable"
      else if s == MediaUrls then "the JSON object must be str, bytes or bytearray, not bool"
      else "'bool' object has no attribute 'split'"
  }

  /** The messages shown when the header raised: the warnings, then the error. */
  function FailureMessages(f: Failure): (r: seq<string>)
    ensures |r| == |f.warnings| + 1
    ensures StartsWith(r[|r| - 1], HeaderErrorPrefix)
  {
    var m := HeaderErrorPrefix + RaiseDetail(f.cause);
    assert m[..|HeaderErrorPrefix|] == HeaderErrorPrefix;
    seq(|f.warnings|, i requires 0 <= i < |f.warnings| => WarningText(f.warnings[i])) + [m]
  }

  function Warn(d: Draft, w: Warning): Draft {
    d.(warnings := d.warnings + [w])
  }

  /** A header line once read: the setter its name selects, the name, the
      coerced value, and the value as the list setters and the `class_name`
      setter store it. */
  datatype Entry = Entry(setter: Setter, name: string, value: Value, items: seq<string>, slug: string)

  /** The entry for a name and a value. */
  function MakeEntry(name: string, v: Value): Entry {
    Entry(SetterFor(name), name, v, if v.Str? then TagList(v.s) else [], Slugify(ValueText(v)))
  }

  /** `name, value = line.split(':', 1)` after tag stripping, then the lookup
      of the name in the setter table. */
  function ReadLine(line: string): Entry {
    var (name, v) := SplitHeaderLine(line);
    MakeEntry(name, v)
  }

  /** Every line read, in order. */
  function ReadLines(lines: seq<string>): (r: seq<Entry>)
    ensures |r| == |lines|
    ensures forall i :: 0 <= i < |r| ==> r[i] == ReadLine(lines[i])
  {
    MapSeq(ReadLine, lines)
  }

  /** Lines are read one at a time: reading two blocks of lines is reading
      each block. */
  lemma ReadLinesAppend(a: seq<string>, b: seq<string>)
    ensures ReadLines(a + b) == ReadLines(a) + ReadLines(b)
  {
    MapSeqAppend(ReadLine, a, b);
  }

  /** The entry makes its setter raise. */
  predicate EntryRaises(e: Entry) {
    Raises(e.setter, e.value)
  }

  /** One setter applied to one value. */
  function Apply(d: Draft, e: Entry, env: Env): (r: Result<Draft, Failure>)
    ensures r.Err? <==> EntryRaises(e)
    ensures r.Err? ==> r.error == Failure(d.warnings, SetterRaised(e.setter))
  {
    var p := d.post;
    var v := e.value;
    if Raises(e.setter, v) then Err(Failure(d.warnings, SetterRaised(e.setter)))
    else match e.setter
      case Title => Ok(d.(title := v))
      case ShortDescription => Ok(d.(post := p.(shortDescription := Take(v.s, 100))))
      case Link => Ok(d.(link := v))
      case Alias => Ok(d.(post := p.(alias := ValueText(v))))
      case PublishedDate =>
        if !Truthy(v) then Ok(d.(post := p.(publishedDate := Some(env.now))))
        else (match env.parseDate(ReplaceChar(ValueText(v), '/', '-'))
          case Some(t) => Ok(d.(post := p.(publishedDate := Some(t))))
          case None => Ok(Warn(d, BadDate)))
      case Tags => Ok(d.(post := p.(tags := e.items)))
      case Tools => Ok(d.(post := p.(tools := e.items)))
      case GithubUrl => Ok(d.(post := p.(githubUrl := ValueText(v))))
      case CommentsEnabled =>
        if v.Bool? then Ok(d.(post := p.(commentsEnabled := v.b))) else Ok(Warn(d, NeedsBoolean(e.name)))
      case MediaUrls =>
        if !Truthy(v) then Ok(d.(post := p.(mediaUrls := [])))
        else (match env.parseJson(v.s)
          case Some(urls) => Ok(d.(post := p.(mediaUrls := urls)))
          case None => Ok(Warn(d, BadMediaUrls)))
      case MakeDiscoverable =>
        if v.Bool? then Ok(d.(post := p.(makeDiscoverable := v.b))) else Ok(Warn(d, NeedsBoolean(e.name)))
      case IsPage =>
        if v.Bool? then Ok(d.(post := p.(isPage := v.b))) else Ok(Warn(d, NeedsBoolean(e.name)))
      case ClassName => Ok(d.(post := p.(className := e.slug)))
      case CanonicalUrl => Ok(d.(post := p.(canonicalUrl := ValueText(v))))
      case MetaDescription => Ok(d.(post := p.(metaDescription := ValueText(v))))
      case MetaImage => Ok(d.(post := p.(metaImage := ValueText(v))))
      case Unrecognised => Ok(Warn(d, UnknownOption(e.name)))
  }

  /** The entries in order; the first raising setter ends the parse. */
  function ParseEntries(d: Draft, es: seq<Entry>, env: Env): (r: Result<Draft, Failure>)
    decreases |es|
  {
    if |es| == 0 then Ok(d)
    else
      match Apply(d, es[0], env)
      case Err(f) => Err(f)
      case Ok(d') => ParseEntries(d', es[1..], env)
  }

  /** The columns the header never writes. */
  function Untouched(p: Post): (Option<nat>, string, string, string, bool, string, bool, string) {
    (p.pk, p.uid, p.title, p.slug, p.publish, p.token, p.isTemplateDraft, p.content)
  }

  /** The reset block that runs before the header is read. */
  function Reset(p: Post): (r: Post)
    ensures Untouched(r) == Untouched(p)
    ensures r.publishedDate == p.publishedDate
  {
    p.(alias := "", className := "", canonicalUrl := "", metaDescription := "",
       metaImage := "", shortDescription := "", isPage := false,
       makeDiscoverable := true, lang := "", tags := [], tools := [],
       githubUrl := "", commentsEnabled := true, mediaUrls := [])
  }

  /** The editor's state before the first line: the reset post, its old title,
      and `slug = ''`. */
  function Start(prior: Post): Draft {
    Draft(Reset(prior), Str(prior.title), Str(""), [])
  }

  /** The header's entries, one per non-empty line. */
  function HeaderEntries(header: string): seq<Entry> {
    ReadLines(HeaderLines(header))
  }

  /** Reset the post and read every non-empty header line. */
  function ApplyHeader(prior: Post, header: string, env: Env): Result<Draft, Failure> {
    ParseEntries(Start(prior), HeaderEntries(header), env)
  }

  // ---------------------------------------------------------------- field view

  /** The value a setter controls, for stating what a line leaves alone. */
  datatype FieldValue =
    | TextField(s: string)
    | FlagField(b: bool)
    | ListField(l: seq<string>)
    | DateField(d: Option<int>)
    | ValueField(v: Value)
    | NoField

  function Field(d: Draft, s: Setter): FieldValue {
    var p := d.post;
    match s
    case Title => ValueField(d.title)
    case ShortDescription => TextField(p.shortDescription)
    case Link => ValueField(d.link)
    case Alias => TextField(p.alias)
    case PublishedDate => DateField(p.publishedDate)
    case Tags => ListField(p.tags)
    case Tools => ListField(p.tools)
    case GithubUrl => TextField(p.githubUrl)
    case CommentsEnabled => FlagField(p.commentsEnabled)
    case MediaUrls => ListField(p.mediaUrls)
    case MakeDiscoverable => FlagField(p.makeDiscoverable)
    case IsPage => FlagField(p.isPage)
    case ClassName => TextField(p.className)
    case CanonicalUrl => TextField(p.canonicalUrl)
    case MetaDescription => TextField(p.metaDescription)
    case MetaImage => TextField(p.metaImage)
    case Unrecognised => NoField
  }

  /** A setter writes its own field and no other. */
  lemma ApplyOtherFields(d: Draft, e: Entry, env: Env, t: Setter)
    requires Apply(d, e, env).Ok? && t != e.setter
    ensures Field(Apply(d, e, env).value, t) == Field(d, t)
  {
    if e.setter == PublishedDate {
      DateSetterFrame(d, e, env, t);
    } else if e.setter == MediaUrls {
      MediaSetterFrame(d, e, env, t);
    } else if e.setter in {Title, ShortDescription, Link, Alias, GithubUrl, Tags, Tools} {
      TextSetterFrame(d, e, env, t);
    } else if e.setter in {CommentsEnabled, MakeDiscoverable, IsPage} {
      FlagSetterFrame(d, e, env, t);
    } else {
      OtherSetterFrame(d, e, env, t);
    }
  }

  lemma DateSetterFrame(d: Draft, e: Entry, env: Env, t: Setter)
    requires e.setter == PublishedDate
    requires Apply(d, e, env).Ok? && t != e.setter
    ensures Field(Apply(d, e, env).value, t) == Field(d, t)
  {
  }

  lemma MediaSetterFrame(d: Draft, e: Entry, env: Env, t: Setter)
    requires e.setter == MediaUrls
    requires Apply(d, e, env).Ok? && t != e.setter
    ensures Field(Apply(d, e, env).value, t) == Field(d, t)
  {
  }

  lemma TextSetterFrame(d: Draft, e: Entry, env: Env, t: Setter)
    requires e.setter in {Title, ShortDescription, Link, Alias, GithubUrl, Tags, Tools}
    requires Apply(d, e, env).Ok? && t != e.setter
    ensures Field(Apply(d, e, env).value, t) == Field(d, t)
  {
  }

  lemma FlagSetterFrame(d: Draft, e: Entry, env: Env, t: Setter)
    requires e.setter in {CommentsEnabled, MakeDiscoverable, IsPage}
    requires Apply(d, e, env).Ok? && t != e.setter
    ensures Field(Apply(d, e, env).value, t) == Field(d, t)
  {
  }

  lemma OtherSetterFrame(d: Draft, e: Entry, env: Env, t: Setter)
    requires e.setter in {ClassName, CanonicalUrl, MetaDescription, MetaImage, Unrecognised}
    requires Apply(d, e, env).Ok? && t != e.setter
    ensures Field(Apply(d, e, env).value, t) == Field(d, t)
  {
  }

  /** No setter writes the identity, slug, title, content or publication columns. */
  lemma ApplyUntouched(d: Draft, e: Entry, env: Env)
    requires Apply(d, e, env).Ok?
    ensures Untouched(Apply(d, e, env).value.post) == Untouched(d.post)
  {
    match e.setter
    case PublishedDate =>
    case MediaUrls =>
    case _ =>
  }

  /** A setter adds at most one warning and keeps the earlier ones. */
  lemma ApplyWarnings(d: Draft, e: Entry, env: Env)
    requires Apply(d, e, env).Ok?
    ensures var w := Apply(d, e, env).value.warnings;
      |d.warnings| <= |w| <= |d.warnings| + 1 && w[..|d.warnings|] == d.warnings
  {
  }

  /** A field no entry selects keeps the value it had before the header. */
  lemma {:induction false} EntriesFrame(d: Draft, es: seq<Entry>, env: Env, t: Setter)
    requires ParseEntries(d, es, env).Ok?
    requires forall i :: 0 <= i < |es| ==> es[i].setter != t
    ensures Field(ParseEntries(d, es, env).value, t) == Field(d, t)
    ensures Untouched(ParseEntries(d, es, env).value.post) == Untouched(d.post)
    decreases |es|
  {
    if |es| > 0 {
      var d' := Apply(d, es[0], env).value;
      ApplyOtherFields(d, es[0], env, t);
      ApplyUntouched(d, es[0], env);
      EntriesFrame(d', es[1..], env, t);
    }
  }

  /** No header line writes the identity, slug, title, content or publication columns. */
  lemma {:induction false} UntouchedByEntries(d: Draft, es: seq<Entry>, env: Env)
    requires ParseEntries(d, es, env).Ok?
    ensures Untouched(ParseEntries(d, es, env).value.post) == Untouched(d.post)
    decreases |es|
  {
    if |es| > 0 {
      ApplyUntouched(d, es[0], env);
      UntouchedByEntries(Apply(d, es[0], env).value, es[1..], env);
    }
  }

  // ---------------------------------------------------------------- line lemmas

  /** An unknown name adds exactly its one warning and changes nothing else. */
  lemma UnknownNameWarns(d: Draft, e: Entry, env: Env)
    requires e.setter == Unrecognised
    ensures Apply(d, e, env) == Ok(Warn(d, UnknownOption(e.name)))
  {
  }

  /** Only names outside the table are unrecognised. */
  lemma UnrecognisedIffUnknownName(name: string)
    ensures SetterFor(name) == Unrecognised <==>
      forall s: Setter :: s != Unrecognised ==> SetterName(s) != name
  {
    if SetterFor(name) != Unrecognised {
      SetterRoundTrip(SetterFor(name));
    }
  }

  /** A colon-less line is read as a name with the empty value, which no
      setter raises on. */
  lemma ColonlessLine(line: string)
    requires ':' !in StripTags(line)
    ensures ReadLine(line).name == Strip(StripTags(line))
    ensures ReadLine(line).value == Str("")
    ensures !EntryRaises(ReadLine(line))
  {
    var name := Strip(StripTags(line));
    assert SplitHeaderLine(line) == (name, Str(""));
    TextEntry(name, "");
  }

  /** An entry holding text has the name and value it was read with, and no
      setter raises on text. */
  lemma TextEntry(name: string, s: string)
    ensures MakeEntry(name, Str(s)).name == name && MakeEntry(name, Str(s)).value == Str(s)
    ensures !EntryRaises(MakeEntry(name, Str(s)))
  {
    var e := MakeEntry(name, Str(s));
    assert e.setter == SetterFor(name) && e.value == Str(s);
    assert !Raises(e.setter, Str(s));
  }

  /** The boolean-only fields take a boolean and nothing else: any other value
      adds exactly one warning and leaves the draft as it was. */
  lemma BoolFieldStrict(d: Draft, e: Entry, env: Env)
    requires e.setter == CommentsEnabled || e.setter == MakeDiscoverable || e.setter == IsPage
    ensures e.value.Str? ==> Apply(d, e, env) == Ok(Warn(d, NeedsBoolean(e.name)))
    ensures e.value.Bool? ==>
      && Apply(d, e, env).Ok?
      && Apply(d, e, env).value.warnings == d.warnings
      && Field(Apply(d, e, env).value, e.setter) == FlagField(e.value.b)
  {
  }

  // ---------------------------------------------------------------- whole header

  /** Reading entries `a` then `b` is reading `a + b`: entries are processed in
      order and only a raising setter stops the parse. */
  lemma {:induction false} ParseEntriesAppend(d: Draft, a: seq<Entry>, b: seq<Entry>, env: Env)
    ensures ParseEntries(d, a + b, env) ==
      match ParseEntries(d, a, env)
      case Err(f) => Err(f)
      case Ok(d') => ParseEntries(d', b, env)
    decreases |a|
  {
    if |a| == 0 {
      assert a + b == b;
    } else {
      assert (a + b)[0] == a[0];
      assert (a + b)[1..] == a[1..] + b;
      match Apply(d, a[0], env)
      case Err(f) =>
      case Ok(d') => ParseEntriesAppend(d', a[1..], b, env);
    }
  }

  /** The first entry that makes its setter raise, if any. */
  function FirstRaising(es: seq<Entry>): (r: Option<nat>)
    ensures r.None? <==> forall i :: 0 <= i < |es| ==> !EntryRaises(es[i])
    ensures r.Some? ==> r.value < |es| && EntryRaises(es[r.value])
    ensures r.Some? ==> forall i :: 0 <= i < r.value ==> !EntryRaises(es[i])
    decreases |es|
  {
    if |es| == 0 then None
    else if EntryRaises(es[0]) then Some(0)
    else
      assert forall i :: 1 <= i < |es| ==> es[i] == es[1..][i - 1];
      match FirstRaising(es[1..])
      case None => None
      case Some(k) => Some(k + 1)
  }

  /** The parse fails exactly when some entry makes its setter raise, and the
      failure names the setter of the first such entry. */
  lemma {:induction false} ParseFailsAtFirstRaising(d: Draft, es: seq<Entry>, env: Env)
    ensures ParseEntries(d, es, env).Err? <==> FirstRaising(es).Some?
    ensures ParseEntries(d, es, env).Err? ==>
      ParseEntries(d, es, env).error.cause == SetterRaised(es[FirstRaising(es).value].setter)
    decreases |es|
  {
    if |es| > 0 && !EntryRaises(es[0]) {
      ParseFailsAtFirstRaising(Apply(d, es[0], env).value, es[1..], env);
    }
  }

  /** The last entry that selects the setter, if any. */
  function LastEntry(es: seq<Entry>, s: Setter): (r: Option<Entry>)
    ensures r.None? <==> forall i :: 0 <= i < |es| ==> es[i].setter != s
    ensures r.Some? ==> r.value in es && r.value.setter == s
    decreases |es|
  {
    if |es| == 0 then None
    else
      assert forall i :: 1 <= i < |es| ==> es[i] == es[1..][i - 1];
      match LastEntry(es[1..], s)
      case Some(e) => Some(e)
      case None => if es[0].setter == s then Some(es[0]) else None
  }

  /** A later `tags:` or `tools:` line replaces an earlier one: the list is
      the one read from the last such line. */
  lemma {:induction false} ListLastWins(d: Draft, es: seq<Entry>, env: Env, s: Setter)
    requires s == Tags || s == Tools
    requires ParseEntries(d, es, env).Ok?
    ensures Field(ParseEntries(d, es, env).value, s) ==
      match LastEntry(es, s)
      case None => Field(d, s)
      case Some(e) => ListField(e.items)
    decreases |es|
  {
    if |es| > 0 {
      var d' := Apply(d, es[0], env).value;
      ListLastWins(d', es[1..], env, s);
      if LastEntry(es[1..], s).None? && es[0].setter != s {
        ApplyOtherFields(d, es[0], env, s);
      }
    }
  }

  /** The reading never lengthens the short description past 100 characters. */
  lemma {:induction false} ShortDescriptionBounded(d: Draft, es: seq<Entry>, env: Env)
    requires |d.post.shortDescription| <= 100
    requires ParseEntries(d, es, env).Ok?
    ensures |ParseEntries(d, es, env).value.post.shortDescription| <= 100
    decreases |es|
  {
    if |es| > 0 {
      if es[0].setter != ShortDescription {
        ApplyOtherFields(d, es[0], env, ShortDescription);
      }
      ShortDescriptionBounded(Apply(d, es[0], env).value, es[1..], env);
    }
  }

  /** With no line selecting them, reset fields hold their reset values, and
      the title and publication date keep the post's previous values. */
  lemma ResetUnlessNamed(prior: Post, header: string, env: Env, t: Setter)
    requires ApplyHeader(prior, header, env).Ok?
    requires forall i :: 0 <= i < |HeaderEntries(header)| ==> HeaderEntries(header)[i].setter != t
    ensures Field(ApplyHeader(prior, header, env).value, t) == Field(Start(prior), t)
    ensures t == Title ==> ApplyHeader(prior, header, env).value.title == Str(prior.title)
    ensures t == PublishedDate ==>
      ApplyHeader(prior, header, env).value.post.publishedDate == prior.publishedDate
    ensures t == Tags ==> ApplyHeader(prior, header, env).value.post.tags == []
    ensures t == IsPage ==> !ApplyHeader(prior, header, env).value.post.isPage
    ensures t == CommentsEnabled ==> ApplyHeader(prior, header, env).value.post.commentsEnabled
    ensures t == MakeDiscoverable ==> ApplyHeader(prior, header, env).value.post.makeDiscoverable
    ensures t == Link ==> ApplyHeader(prior, header, env).value.link == Str("")
  {
    var es := HeaderEntries(header);
    var d0 := Start(prior);
    assert ApplyHeader(prior, header, env) == ParseEntries(d0, es, env);
    EntriesFrame(d0, es, env, t);
    StartFields(prior, ParseEntries(d0, es, env).value, t);
  }

  /** What a draft whose field `t` still holds its starting value holds there. */
  lemma StartFields(prior: Post, d: Draft, t: Setter)
    requires Field(d, t) == Field(Start(prior), t)
    ensures t == Title ==> d.title == Str(prior.title)
    ensures t == PublishedDate ==> d.post.publishedDate == prior.publishedDate
    ensures t == Tags ==> d.post.tags == []
    ensures t == IsPage ==> !d.post.isPage
    ensures t == CommentsEnabled ==> d.post.commentsEnabled
    ensures t == MakeDiscoverable ==> d.post.makeDiscoverable
    ensures t == Link ==> d.link == Str("")
  {
  }

  // ---------------------------------------------------------------- saving

  const PublishedLockMessage :=
    "Published posts cannot be updated automatically. Use 'Save as new draft' to create a draft version."
  const PostLimitMessage :=
    "You have reached the maximum number of posts. This is a safety feature to prevent abuse. If you're sure you need more, please contact support."
  const TooLongMessage :=
    "Your content is too long. This is a safety feature to prevent abuse. If you're sure you need more, please contact support."
  const MaxPosts := 3000
  const MaxPostContent := 1000000

  /** A title column after its header: a falsy value gives way to the
      editor's default, so the title is never empty. */
  function TitleOr(v: Value, fallback: string): (r: string)
    requires fallback != ""
    ensures r != ""
    ensures Truthy(v) ==> r == ValueText(v)
    ensures !Truthy(v) ==> r == fallback
  {
    if Truthy(v) then ValueText(v) else fallback
  }

  /** The post editor's default title. */
  function FinalTitle(v: Value): string {
    TitleOr(v, "New drop")
  }

  datatype SaveOutcome =
    | NotSubmitted
    | Refused(message: string)
    | HeaderFailed(failure: Failure)
    | Previewed(post: Post, warnings: seq<Warning>)
    | Saved(post: Post, warnings: seq<Warning>)
    | SavedAsNewDraft(draft: Post, edited: Post, warnings: seq<Warning>)  // `edited` is not stored

  /** The columns "Save as new draft" copies from the edited post. */
  function CarriedOver(p: Post): (bool, bool, bool, seq<string>, seq<string>, string, string,
                                  string, string, string, string, seq<string>) {
    (p.isPage, p.makeDiscoverable, p.commentsEnabled, p.tags, p.tools, p.githubUrl,
     p.shortDescription, p.metaDescription, p.metaImage, p.canonicalUrl, p.className, p.mediaUrls)
  }

  /** The fresh draft built from an edited published post. */
  function NewDraftCopy(edited: Post, slug: string, body: string, now: int): (r: Post)
    ensures r.pk.None? && !r.publish && r.slug == slug && r.content == body
    ensures r.title == edited.title && r.publishedDate == Some(now)
    ensures CarriedOver(r) == CarriedOver(edited)
    ensures r.alias == "" && r.token == "" && !r.isTemplateDraft
  {
    NewPost.(
      title := edited.title, slug := slug, content := body, publish := false,
      isPage := edited.isPage, makeDiscoverable := edited.makeDiscoverable,
      commentsEnabled := edited.commentsEnabled, tags := edited.tags,
      tools := edited.tools, githubUrl := edited.githubUrl,
      shortDescription := edited.shortDescription,
      metaDescription := edited.metaDescription, metaImage := edited.metaImage,
      canonicalUrl := edited.canonicalUrl, className := edited.className,
      mediaUrls := edited.mediaUrls, publishedDate := Some(now))
  }

  /** `r` is `p` except in the five columns the save path writes after the
      header: title, slug, date, content and publication flag. */
  predicate SaveColumnsOnly(p: Post, r: Post) {
    r == p.(title := r.title, slug := r.slug, publishedDate := r.publishedDate,
            content := r.content, publish := r.publish)
  }

  /** The date a save stores: the header's (or the prior post's) date, and
      `now` when there is none. */
  predicate DateKeptOrNow(before: Option<int>, after: Option<int>, now: int) {
    after.Some? && (before.Some? ==> after == before) && (before.None? ==> after == Some(now))
  }

  /** The columns written after the header: title default, slug, date
      default, content and publication flag. */
  function Finish(d: Draft, slug: string, body: string, now: int, publish: bool): (r: Post)
    ensures SaveColumnsOnly(d.post, r)
    ensures Untouched(r).0 == d.post.pk && r.uid == d.post.uid
    ensures r.alias == d.post.alias && r.lang == d.post.lang && r.token == d.post.token
    ensures r.isTemplateDraft == d.post.isTemplateDraft
    ensures r.title == FinalTitle(d.title) && r.slug == slug && r.content == body
    ensures r.publish == publish && r.publishedDate.Some?
    ensures d.post.publishedDate.Some? ==> r.publishedDate == d.post.publishedDate
    ensures d.post.publishedDate.None? ==> r.publishedDate == Some(now)
    ensures CarriedOver(r) == CarriedOver(d.post)
  {
    var date := if d.post.publishedDate.None? then Some(now) else d.post.publishedDate;
    d.post.(title := FinalTitle(d.title), slug := slug, publishedDate := date, content := body,
            publish := publish)
  }

  /** A header that parsed and left the title, link and short description
      in the shape the rest of the save path expects. */
  predicate WellFormedDraft(d: Draft, prior: Post) {
    && |d.post.shortDescription| <= 100
    && Untouched(d.post) == Untouched(prior)
  }

  /** The post the header was applied to, once the save path has finished
      with it: the post stored or previewed, or the edited post a "Save as
      new draft" copies. */
  function EditedPost(out: SaveOutcome): Post
    requires out.Saved? || out.Previewed? || out.SavedAsNewDraft?
  {
    if out.SavedAsNewDraft? then out.edited else out.post
  }

  /** The slug `unique_slug` gives: the base extended by zero or more
      `-new` stacks, and the base itself when no other post holds it. */
  predicate SlugFrom(store: SlugStore, pk: Option<nat>, base: string, slug: string) {
    && StartsWith(slug, base)
    && !Taken(store, pk, slug)
    && (!Taken(store, pk, base) ==> slug == base)
  }

  /** What the save path promises once the header has been read: a failed
      header or a `link` that is not text gives the header error; otherwise
      the edited post has the title default, a short description of at most
      100 characters, a free slug grown from `link:` or the title, the
      header's date or else `now`, the body and the requested publication
      flag, and every other column as the header left it; and "Save as new draft"
      copies it into a fresh unpublished post with a free slug of its own. */
  predicate SaveSpec(
    store: SlugStore, prior: Option<Post>, parsed: Result<Draft, Failure>,
    body: string, preview: bool, publishParam: Option<string>, now: int,
    rnd: nat, rnd2: nat, out: SaveOutcome)
    requires rnd <= 9999 && rnd2 <= 9999
  {
    && !out.NotSubmitted? && !out.Refused?
    && (out.HeaderFailed? <==> parsed.Err? || parsed.value.link.Bool?)
    && (out.HeaderFailed? ==>
          match parsed
          case Err(f) => out.failure == f
          case Ok(d) => out.failure == Failure(d.warnings, LinkNotText))
    && (out.Previewed? <==> parsed.Ok? && parsed.value.link.Str? && preview)
    && (out.SavedAsNewDraft? <==>
          && parsed.Ok? && parsed.value.link.Str? && !preview
          && prior.Some? && prior.value.publish && publishParam == Some("false"))
    && (!out.HeaderFailed? ==>
          var p := EditedPost(out);
          var d := parsed.value;
          && p.title != "" && p.title == FinalTitle(d.title)
          && |p.shortDescription| <= 100
          && p.pk == prior.GetOr(NewPost).pk
          && SlugFrom(store, p.pk, BaseSlug(d.link.s, p.title, rnd), p.slug)
          && DateKeptOrNow(d.post.publishedDate, p.publishedDate, now)
          && SaveColumnsOnly(d.post, p)
          && p.alias == d.post.alias && p.lang == d.post.lang && p.token == d.post.token
          && p.content == body
          && (p.publish <==> publishParam == Some("true"))
          && CarriedOver(p) == CarriedOver(d.post)
          && out.warnings == d.warnings)
    && (out.SavedAsNewDraft? ==>
          && out.draft.pk.None? && !out.draft.publish
          && SlugFrom(store, None, BaseSlug(out.edited.slug, out.edited.title, rnd2), out.draft.slug)
          && out.draft.title == out.edited.title
          && out.draft.content == body
          && out.draft.publishedDate == Some(now)
          && CarriedOver(out.draft) == CarriedOver(out.edited))
  }

  /** Everything the editor does once the header has been read: the link
      check, the title and date defaults, `unique_slug`, and the choice
      between preview, save, and "Save as new draft". */
  method SaveParsed(
    store: SlugStore, prior: Option<Post>, parsed: Result<Draft, Failure>,
    body: string, preview: bool, publishParam: Option<string>, now: int,
    rnd: nat, rnd2: nat)
    returns (out: SaveOutcome)
    requires rnd <= 9999 && rnd2 <= 9999
    requires parsed.Ok? ==> WellFormedDraft(parsed.value, prior.GetOr(NewPost))
    ensures SaveSpec(store, prior, parsed, body, preview, publishParam, now, rnd, rnd2, out)
  {
    if parsed.Err? {
      return HeaderFailed(parsed.error);
    }
    var d := parsed.value;
    if d.link.Bool? {
      return HeaderFailed(Failure(d.warnings, LinkNotText));
    }
    var post := prior.GetOr(NewPost);
    var base := BaseSlug(d.link.s, FinalTitle(d.title), rnd);
    var slug, rounds := UniqueSlug(store, post.pk, base);
    CandidateExtendsBase(base, rounds);
    var saved := Finish(d, slug, body, now, publishParam == Some("true"));
    if preview {
      return Previewed(saved, d.warnings);
    }
    if prior.Some? && prior.value.publish && publishParam == Some("false") {
      // The published row is left as stored; a fresh unsaved post takes the edit.
      var copyBase := BaseSlug(saved.slug, saved.title, rnd2);
      var copySlug, copyRounds := UniqueSlug(store, None, copyBase);
      CandidateExtendsBase(copyBase, copyRounds);
      return SavedAsNewDraft(NewDraftCopy(saved, copySlug, body, now), saved, d.warnings);
    }
    return Saved(saved, d.warnings);
  }

  /** The header of any post reads into a well-formed draft when it parses. */
  lemma HeaderWellFormed(prior: Post, header: string, env: Env)
    requires ApplyHeader(prior, header, env).Ok?
    ensures WellFormedDraft(ApplyHeader(prior, header, env).value, prior)
  {
    var start := Start(prior);
    var es := HeaderEntries(header);
    assert ApplyHeader(prior, header, env) == ParseEntries(start, es, env);
    assert |start.post.shortDescription| <= 100 && Untouched(start.post) == Untouched(prior);
    ShortDescriptionBounded(start, es, env);
    UntouchedByEntries(start, es, env);
  }

  /** The POST branch of the post editor: the three refusals, then the header
      (reset first), then the save path. */
  method SavePost(
    store: SlugStore, prior: Option<Post>, isPost: bool, header: string,
    body: string, preview: bool, publishParam: Option<string>, env: Env,
    rnd: nat, rnd2: nat)
    returns (out: SaveOutcome)
    requires rnd <= 9999 && rnd2 <= 9999
    ensures !isPost || header == "" <==> out == NotSubmitted
    ensures isPost && header != "" && prior.Some? && prior.value.publish && !preview
            && publishParam != Some("true") && publishParam != Some("false")
            ==> out == Refused(PublishedLockMessage)
    ensures out.Refused? ==> out.message in {PublishedLockMessage, PostLimitMessage, TooLongMessage}
    ensures out.Refused? && out.message == TooLongMessage ==> |body| > MaxPostContent
    ensures out.Refused? && out.message == PostLimitMessage ==> |store| >= MaxPosts
    ensures !out.NotSubmitted? && !out.Refused? ==>
      && |body| <= MaxPostContent && |store| < MaxPosts
      && SaveSpec(store, prior, ApplyHeader(prior.GetOr(NewPost), header, env),
                  body, preview, publishParam, env.now, rnd, rnd2, out)
  {
    if !isPost || header == "" {
      return NotSubmitted;
    }
    if prior.Some? && prior.value.publish && !preview
       && publishParam != Some("true") && publishParam != Some("false") {
      return Refused(PublishedLockMessage);
    }
    if |store| >= MaxPosts {
      return Refused(PostLimitMessage);
    }
    if |body| > MaxPostContent {
      return Refused(TooLongMessage);
    }
    var parsed := ApplyHeader(prior.GetOr(NewPost), header, env);
    if parsed.Ok? {
      HeaderWellFormed(prior.GetOr(NewPost), header, env);
    }
    out := SaveParsed(store, prior, parsed, body, preview, publishParam, env.now, rnd, rnd2);
  }

  /** A saved post stores the header's alias, and the header's date or
      else `now`. */
  lemma SavedKeepsHeaderColumns(
    store: SlugStore, prior: Option<Post>, parsed: Result<Draft, Failure>,
    body: string, preview: bool, publishParam: Option<string>, now: int,
    rnd: nat, rnd2: nat, out: SaveOutcome)
    requires rnd <= 9999 && rnd2 <= 9999
    requires SaveSpec(store, prior, parsed, body, preview, publishParam, now, rnd, rnd2, out)
    requires out.Saved?
    ensures parsed.Ok? && out.post.alias == parsed.value.post.alias
    ensures out.post.publishedDate ==
      if parsed.value.post.publishedDate.Some? then parsed.value.post.publishedDate else Some(now)
  {
  }

  /** A `link: My Post!` line saves the post under `mypost` when no other
      post of the blog holds that slug. */
  lemma LinkMyPostSaved(
    store: SlugStore, prior: Option<Post>, parsed: Result<Draft, Failure>,
    body: string, preview: bool, publishParam: Option<string>, now: int,
    rnd: nat, rnd2: nat, out: SaveOutcome)
    requires rnd <= 9999 && rnd2 <= 9999
    requires SaveSpec(store, prior, parsed, body, preview, publishParam, now, rnd, rnd2, out)
    requires out.Saved? && parsed.Ok? && parsed.value.link == Str("My Post!")
    requires !Taken(store, prior.GetOr(NewPost).pk, "mypost")
    ensures out.post.slug == "mypost"
  {
    MyPostCleaned();
  }
}
