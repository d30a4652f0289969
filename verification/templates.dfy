/**
 * The post template: a header and a body kept in one text column as
 * `header + "\n___\n" + body`, read back by splitting on the first `___`;
 * the `key: value` pairs of its header shown as form defaults; and the
 * hidden template-draft post that previews it, filled by a header parser of
 * its own.
 *
 * Both readers of template headers test a raw line for `:` and only then
 * strip tags, so a line whose only colon sits inside a tag reaches a
 * two-way unpack of a one-piece split and raises `ValueError`. The
 * `...AsWritten` members model that; the rest of the model reads the
 * stripped line, as the post editor does.
 */
module Templates {
  import opened Wrappers
  import opened Text
  import opened Records

  const Separator := "___"

  /** The `post_template` view joins the two fields it was sent. Reading
      the saved text back gives the two fields, stripped, whenever a header
      without a separator of its own was sent; a body sent alone is stored
      as it is. */
  function CombineTemplate(header: string, body: string): (r: string)
    ensures header != "" && !Contains(header, Separator) ==>
      SplitTemplate(r) == (Strip(header), Strip(body))
    ensures header == "" ==> r == body
  {
    if header != "" && body != "" then
      BothFieldsRoundTrip(header, body);
      header + "\n___\n" + body
    else if header != "" then
      assert Strip(body) == "";
      assert Find(header, Separator).Some? ==> Contains(header, Separator);
      header
    else body
  }

  /** The display split: on the first `___`, both parts stripped; without a
      separator the whole text is the header. */
  function SplitTemplate(t: string): (string, string) {
    match Find(t, Separator)
    case None => (Strip(t), "")
    case Some(i) =>
      assert OccursAt(t, Separator, i);
      (Strip(t[..i]), Strip(t[i + |Separator|..]))
  }

  /** In `header + "\n___\n" + body` the first separator is the one the
      view put there when the header holds none. */
  lemma FirstSeparator(header: string, body: string)
    requires !Contains(header, Separator)
    ensures Find(header + "\n___\n" + body, Separator) == Some(|header| + 1)
  {
    var t := header + "\n___\n" + body;
    var n := |header|;
    assert t[n + 1..n + 4] == Separator;
    assert OccursAt(t, Separator, n + 1);
    forall j: nat | j < n + 1 ensures !OccursAt(t, Separator, j) {
      if j + 3 <= n {
        assert t[j..j + 3] == header[j..j + 3];
        assert !OccursAt(header, Separator, j);
      } else if j + 3 <= |t| {
        assert t[n] == '\n';
        assert t[j..j + 3][n - j] == t[n];
        assert Separator[n - j] == '_';
      }
    }
  }

  /** Header and body joined around the separator read back as the two
      fields, stripped, when the header holds no separator of its own. */
  lemma BothFieldsRoundTrip(header: string, body: string)
    ensures !Contains(header, Separator) ==>
      SplitTemplate(header + "\n___\n" + body) == (Strip(header), Strip(body))
  {
    if Contains(header, Separator) { return; }
    SplitAtSeparator(header, body);
    assert IsSpace('\n');
    StripTrailingSpace(header, "\n");
    StripLeadingSpace("\n", body);
  }

  /** The display split of a saved template cuts exactly around the
      separator the view put there. */
  lemma SplitAtSeparator(header: string, body: string)
    requires !Contains(header, Separator)
    ensures SplitTemplate(header + "\n___\n" + body) == (Strip(header + "\n"), Strip("\n" + body))
  {
    var t := header + "\n___\n" + body;
    FirstSeparator(header, body);
    var front, back := header + "\n", "___\n" + body;
    assert t == front + back;
    assert t[..|front|] == front;
    assert back[3..] == "\n" + body;
    assert t[|front| + 3..] == back[3..];
  }

  /** A template saved with a body and no header reads back with that body
      as its header and an empty body. */
  lemma BodyOnlyReadsAsHeader(body: string)
    requires !Contains(body, Separator)
    ensures SplitTemplate(CombineTemplate("", body)) == (Strip(body), "")
  {
  }

  // ---------------------------------------------------------------- form defaults

  /** A header line on its way into a form default or the draft. */
  datatype Pair = Skip | Unpack | Pair(key: string, value: string)

  /** `if ':' in line:` then tag stripping and `key, value = clean.split(':', 1)`:
      the unpack raises when the colon was inside a tag. */
  function ReadPairAsWritten(line: string): (r: Pair)
    ensures r.Skip? <==> ':' !in line
    ensures r.Unpack? <==> ':' in line && ':' !in StripTags(line)
  {
    if ':' !in line then Skip
    else match SplitOnce(StripTags(line), ':')
      case None => Unpack
      case Some((a, b)) => Pair(Strip(a), Strip(b))
  }

  /** The same line with the colon test made after tag stripping. */
  function ReadPair(line: string): (r: Pair)
    ensures !r.Unpack?
    ensures r.Skip? <==> ':' !in StripTags(line)
    ensures ReadPairAsWritten(line) != Unpack ==> r == ReadPairAsWritten(line)
  {
    match SplitOnce(StripTags(line), ':')
    case None => Skip
    case Some((a, b)) => Pair(Strip(a), Strip(b))
  }

  /** `template_data[key] = value` over the lines: later keys overwrite. */
  function Collect(pairs: seq<Pair>): (r: Result<map<string, string>, Pair>)
    ensures r.Err? <==> exists i :: 0 <= i < |pairs| && pairs[i].Unpack?
    ensures r.Ok? ==> forall k :: k in r.value <==>
      exists i :: 0 <= i < |pairs| && pairs[i].Pair? && pairs[i].key == k
    decreases |pairs|
  {
    if |pairs| == 0 then Ok(map[])
    else
      var last := pairs[|pairs| - 1];
      var init := pairs[..|pairs| - 1];
      assert forall i :: 0 <= i < |init| ==> init[i] == pairs[i];
      match Collect(init)
      case Err(e) => Err(e)
      case Ok(m) =>
        match last
        case Skip => Ok(m)
        case Unpack => Err(Unpack)
        case Pair(k, v) => Ok(m[k := v])
  }

  /** The value of the last line that names the key wins. */
  lemma LastPairWins(pairs: seq<Pair>, k: string, v: string)
    requires Collect(pairs).Ok?
    ensures Collect(pairs + [Pair(k, v)]).Ok?
    ensures Collect(pairs + [Pair(k, v)]).value == Collect(pairs).value[k := v]
  {
    var ps := pairs + [Pair(k, v)];
    assert ps[..|ps| - 1] == pairs;
  }

  /** The form defaults parsed from a template's header, as the code reads
      the lines. */
  function TemplateDataAsWritten(templateHeader: string): Result<map<string, string>, Pair> {
    if templateHeader == "" then Ok(map[])
    else
      var lines := Split(templateHeader, '\n');
      Collect(seq(|lines|, i requires 0 <= i < |lines| => ReadPairAsWritten(lines[i])))
  }

  /** The form defaults with the colon test made after tag stripping. */
  function TemplateData(templateHeader: string): (r: map<string, string>)
    ensures TemplateDataAsWritten(templateHeader).Ok? ==> TemplateDataAsWritten(templateHeader).value == r
  {
    if templateHeader == "" then map[]
    else
      var lines := Split(templateHeader, '\n');
      var pairs := seq(|lines|, i requires 0 <= i < |lines| => ReadPair(lines[i]));
      var written := seq(|lines|, i requires 0 <= i < |lines| => ReadPairAsWritten(lines[i]));
      SameCollect(written, pairs);
      Collect(pairs).value
  }

  /** The corrected reading agrees with the reading as written wherever
      that one succeeds. */
  lemma {:induction false} SameCollect(written: seq<Pair>, fixed: seq<Pair>)
    requires |written| == |fixed|
    requires forall i :: 0 <= i < |fixed| ==> written[i] != Unpack ==> written[i] == fixed[i]
    ensures Collect(written).Ok? ==> Collect(written) == Collect(fixed)
    decreases |fixed|
  {
    if |fixed| > 0 && Collect(written).Ok? {
      var n := |fixed| - 1;
      var w, f := written[..n], fixed[..n];
      assert forall i :: 0 <= i < n ==> w[i] == written[i] && f[i] == fixed[i];
      assert Collect(w).Ok?;
      SameCollect(w, f);
      assert written[n] == fixed[n];
    }
  }

  /** A line whose only colon is inside a tag: `<a:b>`. */
  lemma ColonInTagLine()
    ensures ':' in "<a:b>" && StripTags("<a:b>") == ""
  {
    var s := "<a:b>";
    assert s[1..] == "a:b>";
    assert IndexOf("b>", '>') == Some(1);
    assert IndexOf(":b>", '>') == Some(2);
    assert IndexOf("a:b>", '>') == Some(3);
    assert s[1..][4..] == "";
  }

  /** As written, that line makes the form defaults raise; the corrected
      reading skips it. */
  lemma TemplateDataColonInTag()
    ensures TemplateDataAsWritten("<a:b>").Err?
    ensures TemplateData("<a:b>") == map[]
  {
    ColonInTagLine();
    assert Split("<a:b>", '\n') == ["<a:b>"];
    assert ReadPairAsWritten("<a:b>") == Unpack;
    assert ReadPair("<a:b>") == Skip;
  }

  // ---------------------------------------------------------------- template draft

  /** The names the template-draft parser knows; `all_tags` and `all_tools`
      are accepted beside `tags` and `tools`. */
  datatype DraftField = DraftTitle | DraftShortDescription | DraftTags | DraftTools
                      | DraftGithubUrl | DraftCommentsEnabled | DraftIgnored

  function DraftFieldFor(name: string): DraftField {
    if name == "title" then DraftTitle
    else if name == "short_description" then DraftShortDescription
    else if name == "tags" || name == "all_tags" then DraftTags
    else if name == "tools" || name == "all_tools" then DraftTools
    else if name == "github_url" then DraftGithubUrl
    else if name == "comments_enabled" then DraftCommentsEnabled
    else DraftIgnored
  }

  const TemplatePreviewTitle := "Template Preview"
  const TemplatePreviewSlug := "template-preview"

  /** `q` differs from `p` at most in the six columns the draft header
      writes: title, short description, tags, tools, GitHub URL and the
      comments flag. */
  predicate DraftColumnsOnly(p: Post, q: Post) {
    q == p.(title := q.title, shortDescription := q.shortDescription, tags := q.tags,
            tools := q.tools, githubUrl := q.githubUrl, commentsEnabled := q.commentsEnabled)
  }

  /** One key/value line applied to the draft; there is no boolean coercion
      here, and `comments_enabled` is on unless the value reads `false`. */
  /** Which column a recognised line sets and to what; every other column
      keeps its value, and an ignored line changes nothing. */
  predicate FieldRule(p: Post, r: Post, f: DraftField, value: string) {
    && (r.title == if f == DraftTitle && value != "" then value else p.title)
    && (r.shortDescription == if f == DraftShortDescription then Take(value, 100) else p.shortDescription)
    && (r.tags == if f == DraftTags then CommaList(value) else p.tags)
    && (r.tools == if f == DraftTools then CommaList(value) else p.tools)
    && (r.githubUrl == if f == DraftGithubUrl then value else p.githubUrl)
    && (r.commentsEnabled == if f == DraftCommentsEnabled then Lower(value) != "false" else p.commentsEnabled)
    && (f == DraftIgnored ==> r == p)
  }

  function ApplyDraftPair(p: Post, key: string, value: string): (r: Post)
    ensures DraftColumnsOnly(p, r)
    ensures r.title != p.title ==> r.title == value && value != ""
    ensures |p.shortDescription| <= 100 ==> |r.shortDescription| <= 100
    ensures FieldRule(p, r, DraftFieldFor(key), value)
  {
    match DraftFieldFor(key)
    case DraftTitle => if value != "" then p.(title := value) else p
    case DraftShortDescription => p.(shortDescription := Take(value, 100))
    case DraftTags => p.(tags := CommaList(value))
    case DraftTools => p.(tools := CommaList(value))
    case DraftGithubUrl => p.(githubUrl := value)
    case DraftCommentsEnabled => p.(commentsEnabled := Lower(value) != "false")
    case DraftIgnored => p
  }

  function ApplyDraftPairs(p: Post, pairs: seq<Pair>): (r: Post)
    requires forall i :: 0 <= i < |pairs| ==> !pairs[i].Unpack?
    decreases |pairs|
  {
    if |pairs| == 0 then p
    else
      var p' := if pairs[0].Pair? then ApplyDraftPair(p, pairs[0].key, pairs[0].value) else p;
      ApplyDraftPairs(p', pairs[1..])
  }

  /** The draft's title is never emptied and its short description never
      grows past 100 characters. */
  lemma {:induction false} DraftPairsKeepShape(p: Post, pairs: seq<Pair>)
    requires forall i :: 0 <= i < |pairs| ==> !pairs[i].Unpack?
    requires p.title != "" && |p.shortDescription| <= 100
    ensures ApplyDraftPairs(p, pairs).title != ""
    ensures |ApplyDraftPairs(p, pairs).shortDescription| <= 100
    ensures var r := ApplyDraftPairs(p, pairs);
      r.slug == p.slug && r.uid == p.uid && r.pk == p.pk && r.isTemplateDraft == p.isTemplateDraft
      && r.publish == p.publish
    decreases |pairs|
  {
    if |pairs| > 0 {
      var p' := if pairs[0].Pair? then ApplyDraftPair(p, pairs[0].key, pairs[0].value) else p;
      DraftPairsKeepShape(p', pairs[1..]);
    }
  }

  /** The value of the last line that selects `f`, if any. */
  function LastValueFor(pairs: seq<Pair>, f: DraftField): (r: Option<string>)
    ensures r.Some? ==> exists i :: 0 <= i < |pairs| && pairs[i].Pair? && DraftFieldFor(pairs[i].key) == f
                                                    && pairs[i].value == r.value
    ensures r.None? <==> forall i :: 0 <= i < |pairs| ==> !(pairs[i].Pair? && DraftFieldFor(pairs[i].key) == f)
    decreases |pairs|
  {
    if |pairs| == 0 then None
    else
      var last := pairs[|pairs| - 1];
      if last.Pair? && DraftFieldFor(last.key) == f then Some(last.value)
      else
        assert forall i :: 0 <= i < |pairs| - 1 ==> pairs[..|pairs| - 1][i] == pairs[i];
        LastValueFor(pairs[..|pairs| - 1], f)
  }

  lemma ApplyDraftPairsSnoc(p: Post, pairs: seq<Pair>, last: Pair)
    requires forall i :: 0 <= i < |pairs| ==> !pairs[i].Unpack?
    requires !last.Unpack?
    ensures forall i :: 0 <= i < |pairs + [last]| ==> !(pairs + [last])[i].Unpack?
    ensures ApplyDraftPairs(p, pairs + [last]) ==
      var q := ApplyDraftPairs(p, pairs);
      if last.Pair? then ApplyDraftPair(q, last.key, last.value) else q
    decreases |pairs|
  {
    if |pairs| > 0 {
      var p' := if pairs[0].Pair? then ApplyDraftPair(p, pairs[0].key, pairs[0].value) else p;
      assert (pairs + [last])[1..] == pairs[1..] + [last];
      ApplyDraftPairsSnoc(p', pairs[1..], last);
    }
  }

  /** The last `comments_enabled` line decides the draft's comments flag:
      anything but `false` in any case turns comments on. */
  lemma {:induction false} LastCommentsLineDecides(p: Post, pairs: seq<Pair>)
    requires forall i :: 0 <= i < |pairs| ==> !pairs[i].Unpack?
    ensures ApplyDraftPairs(p, pairs).commentsEnabled ==
      match LastValueFor(pairs, DraftCommentsEnabled)
      case None => p.commentsEnabled
      case Some(v) => Lower(v) != "false"
    decreases |pairs|
  {
    if |pairs| > 0 {
      var init, last := pairs[..|pairs| - 1], pairs[|pairs| - 1];
      assert pairs == init + [last];
      ApplyDraftPairsSnoc(p, init, last);
      LastCommentsLineDecides(p, init);
    }
  }

  /** The last `tags` (or `all_tags`) line decides the draft's tag list,
      which keeps every non-empty entry of that line, duplicates included. */
  lemma {:induction false} LastTagsLineDecides(p: Post, pairs: seq<Pair>)
    requires forall i :: 0 <= i < |pairs| ==> !pairs[i].Unpack?
    ensures ApplyDraftPairs(p, pairs).tags ==
      match LastValueFor(pairs, DraftTags)
      case None => p.tags
      case Some(v) => CommaList(v)
    decreases |pairs|
  {
    if |pairs| > 0 {
      var init, last := pairs[..|pairs| - 1], pairs[|pairs| - 1];
      assert pairs == init + [last];
      ApplyDraftPairsSnoc(p, init, last);
      LastTagsLineDecides(p, init);
    }
  }

  /** `get_or_create`'s defaults for a blog that has no template draft. */
  function DraftDefaults(subdomain: string, now: int): Post {
    NewPost.(uid := "template-" + subdomain, title := TemplatePreviewTitle,
             slug := TemplatePreviewSlug, content := "", publish := false,
             publishedDate := Some(now), isPage := false, makeDiscoverable := true,
             isTemplateDraft := true)
  }

  /** The reset block run when a header was sent. */
  function DraftReset(p: Post): Post {
    p.(title := TemplatePreviewTitle, shortDescription := "", tags := [], tools := [],
       githubUrl := "", commentsEnabled := true, mediaUrls := [])
  }

  /** The lines of the draft header, read with the colon test after tag
      stripping. */
  function DraftPairs(header: string): (r: seq<Pair>)
    ensures forall i :: 0 <= i < |r| ==> !r[i].Unpack?
  {
    var lines := HeaderLines(header);
    seq(|lines|, i requires 0 <= i < |lines| => ReadPair(lines[i]))
  }

  function DraftPairsAsWritten(header: string): seq<Pair> {
    var lines := HeaderLines(header);
    seq(|lines|, i requires 0 <= i < |lines| => ReadPairAsWritten(lines[i]))
  }

  /** `_create_or_update_template_draft`, with the colon test after tag
      stripping. */
  function TemplateDraft(existing: Option<Post>, subdomain: string, header: string,
                         body: string, now: int): (r: Post)
    ensures r.isTemplateDraft || existing.Some?
    ensures r.slug == TemplatePreviewSlug && r.content == body && r.makeDiscoverable
    ensures existing.None? ==> r.uid == "template-" + subdomain && !r.publish
    ensures existing.Some? ==> r.pk == existing.value.pk && r.uid == existing.value.uid
    ensures r.title != ""
                || (header == "" && existing.Some? && existing.value.title == "")
    ensures header != "" ==> |r.shortDescription| <= 100
  {
    var p := existing.GetOr(DraftDefaults(subdomain, now));
    if header == "" then DraftFinish(p, body)
    else
      DraftPairsKeepShape(DraftReset(p), DraftPairs(header));
      DraftFinish(ApplyDraftPairs(DraftReset(p), DraftPairs(header)), body)
  }

  /** With a header, the draft starts from the reset values and the last
      `comments_enabled` line and the last `tags` line decide those two
      columns; without one, the draft keeps its own. */
  lemma TemplateDraftLastLines(existing: Option<Post>, subdomain: string, header: string,
                               body: string, now: int)
    ensures var r := TemplateDraft(existing, subdomain, header, body, now);
      header != "" ==>
        && r.commentsEnabled == (match LastValueFor(DraftPairs(header), DraftCommentsEnabled)
                                 case None => true
                                 case Some(v) => Lower(v) != "false")
        && r.tags == (match LastValueFor(DraftPairs(header), DraftTags)
                      case None => []
                      case Some(v) => CommaList(v))
    ensures var r := TemplateDraft(existing, subdomain, header, body, now);
      var p := existing.GetOr(DraftDefaults(subdomain, now));
      header == "" ==> r.commentsEnabled == p.commentsEnabled && r.tags == p.tags
  {
    if header != "" {
      var p := existing.GetOr(DraftDefaults(subdomain, now));
      LastCommentsLineDecides(DraftReset(p), DraftPairs(header));
      LastTagsLineDecides(DraftReset(p), DraftPairs(header));
    }
  }

  /** The columns set whatever the header said. */
  function DraftFinish(p: Post, body: string): Post {
    p.(content := body, makeDiscoverable := true, slug := TemplatePreviewSlug)
  }

  /** Where the lines as written hold no failing unpack, they are the
      corrected lines. */
  lemma SameDraftPairs(header: string)
    requires forall i :: 0 <= i < |DraftPairsAsWritten(header)| ==> !DraftPairsAsWritten(header)[i].Unpack?
    ensures DraftPairsAsWritten(header) == DraftPairs(header)
  {
    var lines := HeaderLines(header);
    var written, fixed := DraftPairsAsWritten(header), DraftPairs(header);
    assert |written| == |fixed|;
    forall i | 0 <= i < |fixed| ensures written[i] == fixed[i] {
      assert written[i] == ReadPairAsWritten(lines[i]);
      assert fixed[i] == ReadPair(lines[i]);
    }
  }

  /** The same parser as written: the lines are read with the colon test
      before tag stripping, and a line whose colon is only inside a tag
      raises before the draft is saved. */
  function TemplateDraftAsWritten(existing: Option<Post>, subdomain: string, header: string,
                                  body: string, now: int): (r: Result<Post, Pair>)
    ensures r.Err? <==> header != "" && exists i :: 0 <= i < |DraftPairsAsWritten(header)|
                                                   && DraftPairsAsWritten(header)[i].Unpack?
    ensures r.Ok? ==> r.value == TemplateDraft(existing, subdomain, header, body, now)
  {
    var p := existing.GetOr(DraftDefaults(subdomain, now));
    if header == "" then Ok(DraftFinish(p, body))
    else
      var pairs := DraftPairsAsWritten(header);
      if exists i :: 0 <= i < |pairs| && pairs[i].Unpack? then Err(Unpack)
      else
        SameDraftPairs(header);
        Ok(DraftFinish(ApplyDraftPairs(DraftReset(p), pairs), body))
  }

  /** A non-empty header without a carriage return is a single line. */
  lemma OneHeaderLine(header: string)
    requires header != "" && '\r' !in header
    ensures HeaderLines(header) == [header]
  {
    AbsentFirstChar(header, "\r\n");
    SplitOnAbsent(header, "\r\n");
    assert NonEmpty([header]) == [header] by {
      assert [header][1..] == [];
    }
  }

  /** As written, a header line `<a:b>` crashes the template save. */
  lemma TemplateDraftColonInTag(existing: Option<Post>, subdomain: string, body: string, now: int)
    ensures TemplateDraftAsWritten(existing, subdomain, "<a:b>", body, now).Err?
  {
    ColonInTagLine();
    OneHeaderLine("<a:b>");
    assert ReadPairAsWritten("<a:b>") == Unpack;
    assert DraftPairsAsWritten("<a:b>")[0] == Unpack;
  }

  lemma SplitTwoPieces()
    ensures Split("a,a", ',') == ["a", "a"]
  {
    assert IndexOf("a,a", ',') == Some(1);
    assert "a,a"[..1] == "a" && "a,a"[2..] == "a";
    assert Split("a", ',') == ["a"];
  }

  lemma CleanTwoPieces()
    ensures Cleaned(["a", "a"]) == ["a", "a"]
  {
    StripFixed("a");
    assert Stripped(["a", "a"]) == ["a", "a"];
    assert NonEmpty(["a"]) == ["a"] by {
      assert ["a"][1..] == [];
    }
    assert NonEmpty(["a", "a"]) == ["a"] + NonEmpty(["a"]) by {
      assert ["a", "a"][1..] == ["a"];
    }
  }

  /** Unlike the post editor's tag list, the draft's keeps duplicates. */
  lemma TagsLineSplit()
    ensures SplitOnce(StripTags("tags:a,a"), ':') == Some(("tags", "a,a"))
  {
    var s := "tags:a,a";
    assert '<' !in s;
    StripTagsFixed(s);
    assert s[..4] == "tags" && s[5..] == "a,a";
    SplitOnceAt(s, ':', 4);
  }

  /** A line whose split parts carry no surrounding space reads as those parts. */
  lemma ReadPairOfParts(line: string, k: string, v: string)
    requires SplitOnce(StripTags(line), ':') == Some((k, v))
    requires Strip(k) == k && Strip(v) == v
    ensures ReadPair(line) == Pair(k, v)
  {
  }

  lemma TagsLineParts()
    ensures Strip("tags") == "tags" && Strip("a,a") == "a,a"
  {
    StripFixed("tags");
    StripFixed("a,a");
  }

  lemma TagsLineRead()
    ensures ReadPair("tags:a,a") == Pair("tags", "a,a")
  {
    TagsLineSplit();
    TagsLineParts();
    ReadPairOfParts("tags:a,a", "tags", "a,a");
  }

  lemma TagsDraftPairs()
    ensures DraftPairs("tags:a,a") == [Pair("tags", "a,a")]
  {
    OneHeaderLine("tags:a,a");
    TagsLineRead();
  }

  lemma TagsLastValue()
    ensures LastValueFor([Pair("tags", "a,a")], DraftTags) == Some("a,a")
  {
    assert DraftFieldFor("tags") == DraftTags;
  }

  lemma CommaListTwoPieces()
    ensures CommaList("a,a") == ["a", "a"]
  {
    SplitTwoPieces();
    CleanTwoPieces();
  }

  /** A header line `tags:a,a` gives the draft the tag list `["a", "a"]`:
      the draft keeps duplicates where the post header drops them. */
  lemma DraftListKeepsDuplicates(existing: Option<Post>, subdomain: string, body: string, now: int)
    ensures TemplateDraft(existing, subdomain, "tags:a,a", body, now).tags == ["a", "a"]
  {
    TagsDraftPairs();
    TagsLastValue();
    CommaListTwoPieces();
    TemplateDraftLastLines(existing, subdomain, "tags:a,a", body, now);
  }

  // ---------------------------------------------------------------- the view

  datatype TemplateAction = SaveTemplate | DeleteTemplate | NoAction

  /** The template column and the template draft of one blog. */
  datatype TemplateState = TemplateState(template: string, draft: Option<Post>)

  /** The POST branch of `post_template`: the new state and the success
      message. */
  function PostTemplate(st: TemplateState, subdomain: string, header: string, body: string,
                        action: TemplateAction, now: int): (r: (TemplateState, string))
    ensures action == SaveTemplate ==>
      && r.0.template == CombineTemplate(header, body)
      && r.0.draft.Some? && r.0.draft.value.slug == TemplatePreviewSlug
      && r.0.draft.value.content == body
      && r.1 == (if st.template != "" then "Template updated" else "Template saved")
    ensures action == DeleteTemplate ==> r == (TemplateState("", None), "Template deleted")
    ensures action == NoAction ==> r == (st, "")
  {
    match action
    case SaveTemplate =>
      var message := if st.template != "" then "Template updated" else "Template saved";
      (TemplateState(CombineTemplate(header, body), Some(TemplateDraft(st.draft, subdomain, header, body, now))),
       message)
    case DeleteTemplate => (TemplateState("", None), "Template deleted")
    case NoAction => (st, "")
  }

  /** How the `post_template` POST ends as written: a page with its message,
      or a server error raised by the draft parser. */
  datatype TemplateReply = Page(message: string) | ServerError

  /** The same POST branch with the draft parser as written. The template
      column is saved before the draft is parsed, and the draft row is
      fetched or created before its header is read, so a header that makes
      the parser raise leaves the new template stored and the draft as
      `get_or_create` left it. */
  function PostTemplateAsWritten(st: TemplateState, subdomain: string, header: string, body: string,
                                 action: TemplateAction, now: int): (r: (TemplateState, TemplateReply))
    ensures r.1.ServerError? <==>
      action == SaveTemplate && TemplateDraftAsWritten(st.draft, subdomain, header, body, now).Err?
    ensures r.1.ServerError? ==>
      && r.0.template == CombineTemplate(header, body)
      && r.0.draft == Some(st.draft.GetOr(DraftDefaults(subdomain, now)))
    ensures r.1.Page? ==>
      var fixed := PostTemplate(st, subdomain, header, body, action, now);
      r.0 == fixed.0 && r.1.message == fixed.1
  {
    if action == SaveTemplate then
      var stored := CombineTemplate(header, body);
      match TemplateDraftAsWritten(st.draft, subdomain, header, body, now)
      case Err(_) =>
        (TemplateState(stored, Some(st.draft.GetOr(DraftDefaults(subdomain, now)))), ServerError)
      case Ok(draft) =>
        (TemplateState(stored, Some(draft)),
         Page(if st.template != "" then "Template updated" else "Template saved"))
    else
      var fixed := PostTemplate(st, subdomain, header, body, action, now);
      (fixed.0, Page(fixed.1))
  }

  /** As written, saving a template whose header holds `<a:b>` stores the
      template and then fails, leaving a fresh draft at its defaults. */
  lemma PostTemplateColonInTag(subdomain: string, body: string, now: int)
    ensures var r := PostTemplateAsWritten(TemplateState("", None), subdomain, "<a:b>", body,
                                           SaveTemplate, now);
      && r.1 == ServerError
      && r.0.template == CombineTemplate("<a:b>", body)
      && r.0.draft == Some(DraftDefaults(subdomain, now))
      && r.0.draft.value.content == ""
  {
    TemplateDraftColonInTag(None, subdomain, body, now);
  }

  /** What the page shows after a save: the fields read back as sent, up to
      surrounding whitespace. */
  lemma SavedTemplateShown(st: TemplateState, subdomain: string, header: string, body: string, now: int)
    requires header != "" && !Contains(header, Separator)
    ensures SplitTemplate(PostTemplate(st, subdomain, header, body, SaveTemplate, now).0.template)
            == (Strip(header), Strip(body))
  {
  }
}
