/**
 * app/api/admin/featured-projects/route.ts: the validation of a new featured
 * list, the configuration record it stores, the `FEATURED_PROJECTS` literal it
 * writes into lib/github.ts, and the configuration served by GET.
 */
module FeaturedRoute {
  import opened Wrappers
  import opened Text
  import opened Types
  import FeaturedManager

  const MaxFeatured: nat := 6
  const NotAnArray: string := "featuredProjects must be an array"
  const TooMany: string := "Maximum 6 featured projects allowed"
  const UpdateFailed: string := "Failed to update featured projects"

  /** The list GET serves when the configuration file cannot be read or parsed. */
  const DefaultFeatured: seq<string> :=
    ["portfolio-website", "portofolio_hasrinata", "ai-chatbot", "data-analytics-dashboard"]

  /**
   * The request body. `Unparsable`: not JSON, or the JSON `null`, whose
   * destructuring throws. Any other JSON value is `Parsed` with its
   * `featuredProjects` field; a number, string, boolean or array body has no
   * such field and is `Parsed(None)`.
   */
  datatype PostBody = Unparsable | Parsed(featuredProjects: Option<Json<string>>)

  datatype StoredConfig = StoredConfig(featuredProjects: seq<string>, lastUpdated: string)

  datatype PostResponse = Updated(config: StoredConfig) | Rejected(status: int, error: string)

  /**
   * POST: `stamp` is `new Date().toISOString()`; `persisted` says whether both
   * file writes went through.
   */
  function Post(body: PostBody, stamp: string, persisted: bool): (r: PostResponse)
    ensures r.Updated? <==> body.Parsed? && body.featuredProjects.Some? && body.featuredProjects.value.JArray?
                            && |body.featuredProjects.value.items| <= MaxFeatured && persisted
    ensures r.Updated? ==> r.config == StoredConfig(body.featuredProjects.value.items, stamp)
    ensures r == Rejected(400, NotAnArray) <==>
      body.Parsed? && (body.featuredProjects.None? || !body.featuredProjects.value.JArray?)
    ensures r == Rejected(400, TooMany) <==>
      body.Parsed? && body.featuredProjects.Some? && body.featuredProjects.value.JArray?
      && |body.featuredProjects.value.items| > MaxFeatured
    ensures r.Rejected? ==> r.status == 400 || r == Rejected(500, UpdateFailed)
  {
    if body.Unparsable? then Rejected(500, UpdateFailed)
    else if body.featuredProjects.None? || !body.featuredProjects.value.JArray? then Rejected(400, NotAnArray)
    else if |body.featuredProjects.value.items| > MaxFeatured then Rejected(400, TooMany)
    else if !persisted then Rejected(500, UpdateFailed)
    else Updated(StoredConfig(body.featuredProjects.value.items, stamp))
  }

  /** Whatever the admin panel's switches leave, started from at most six names, the route accepts. */
  lemma PanelListsAreAccepted(initial: seq<string>, events: seq<(string, bool)>, stamp: string)
    requires |initial| <= MaxFeatured
    ensures var names := FeaturedManager.Replay(initial, events);
            Post(Parsed(Some(JArray(names))), stamp, true) == Updated(StoredConfig(names, stamp))
  {
    FeaturedManager.ReplayStaysWithinCap(initial, events);
  }

  /** The configuration file as GET finds it. */
  datatype ConfigSource = Unreadable | Readable(config: StoredConfig)

  function Get(source: ConfigSource, stamp: string): (c: StoredConfig)
    ensures source.Unreadable? ==> c == StoredConfig(DefaultFeatured, stamp)
    ensures source.Readable? ==> c == source.config
  {
    if source.Readable? then source.config else StoredConfig(DefaultFeatured, stamp)
  }

  /** Once a POST is stored, GET serves the submitted names unchanged. */
  lemma GetAfterPost(names: seq<string>, stamp: string, later: string)
    requires |names| <= MaxFeatured
    ensures var r := Post(Parsed(Some(JArray(names))), stamp, true);
            r.Updated? && Get(Readable(r.config), later).featuredProjects == names
  {
  }

  // ---------------------------------------------- the FEATURED_PROJECTS text

  const Header: string := "const FEATURED_PROJECTS = ["
  const Footer: string := "];"

  function Quote(name: string): string {
    "  '" + name + "'"
  }

  function Quoted(names: seq<string>): (q: seq<string>)
    ensures |q| == |names| && forall i :: 0 <= i < |names| ==> q[i] == Quote(names[i])
  {
    seq(|names|, i requires 0 <= i < |names| => Quote(names[i]))
  }

  /** `updateGithubConfig`'s replacement text: one quoted name per line, in order. */
  function RenderFeaturedArray(names: seq<string>): (text: string)
    ensures StartsWith(text, Header + "\n") && EndsWith(text, "\n" + Footer)
  {
    var text := Header + "\n" + Body(names);
    assert text[..|Header + "\n"|] == Header + "\n";
    assert text[|text| - |"\n" + Footer|..] == "\n" + Footer;
    text
  }

  /** The lines between the header and the footer: each name quoted, all but the last followed by a comma. */
  function ItemLines(names: seq<string>): (lines: seq<string>)
    ensures |lines| == |names|
    decreases |names|
  {
    if names == [] then []
    else if |names| == 1 then [Quote(names[0])]
    else [Quote(names[0]) + ","] + ItemLines(names[1..])
  }

  /** The items and the footer, as they follow the header line. */
  function Body(names: seq<string>): string {
    Join(Quoted(names), ",\n") + "\n" + Footer
  }

  function Unquote(line: string): Option<string> {
    if |line| >= 4 && line[..3] == "  '" && line[|line| - 1] == '\'' then Some(line[3..|line| - 1]) else None
  }

  function ParseItemLines(lines: seq<string>): Option<seq<string>>
    decreases |lines|
  {
    if lines == [] then None
    else if |lines| == 1 then
      var n := Unquote(lines[0]);
      if n.Some? then Some([n.value]) else None
    else
      var l := lines[0];
      if l == [] || l[|l| - 1] != ',' then None
      else
        var n := Unquote(l[..|l| - 1]);
        var rest := ParseItemLines(lines[1..]);
        if n.Some? && rest.Some? then Some([n.value] + rest.value) else None
  }

  /** Reads a `FEATURED_PROJECTS` literal in the rendered layout back into its names. */
  function ParseFeaturedArray(text: string): Option<seq<string>> {
    var lines := SplitOn(text, '\n');
    if |lines| < 3 || lines[0] != Header || lines[|lines| - 1] != Footer then None
    else if lines[1..|lines| - 1] == [""] then Some([])
    else ParseItemLines(lines[1..|lines| - 1])
  }

  predicate SingleLine(names: seq<string>) {
    forall i :: 0 <= i < |names| ==> '\n' !in names[i]
  }

  lemma QuoteIsOneLine(name: string)
    requires '\n' !in name
    ensures '\n' !in Quote(name) && '\n' !in Quote(name) + ","
  {
  }

  lemma NoNewlineSplit(s: string)
    requires '\n' !in s
    ensures SplitOn(s, '\n') == [s]
  {
  }

  /** The rendered item block followed by the footer splits into the item lines and the footer. */
  lemma {:induction false} SplitItems(names: seq<string>)
    requires names != [] && SingleLine(names)
    ensures SplitOn(Body(names), '\n') == ItemLines(names) + [Footer]
    decreases |names|
  {
    if |names| == 1 {
      SplitLastItem(names[0]);
      assert names == [names[0]];
    } else {
      SplitFirstItem(names[0], names[1..]);
      assert names == [names[0]] + names[1..];
      SplitItems(names[1..]);
    }
  }

  lemma SplitLastItem(name: string)
    requires '\n' !in name
    ensures SplitOn(Body([name]), '\n') == ItemLines([name]) + [Footer]
  {
    QuoteIsOneLine(name);
    NoNewlineSplit(Footer);
    assert Body([name]) == Quote(name) + ['\n'] + Footer by {
      assert Quoted([name]) == [Quote(name)];
    }
    SplitOnAppend(Quote(name), '\n', Footer);
  }

  lemma SplitFirstItem(name: string, more: seq<string>)
    requires '\n' !in name && more != []
    ensures SplitOn(Body([name] + more), '\n') == [Quote(name) + ","] + SplitOn(Body(more), '\n')
  {
    QuoteIsOneLine(name);
    var q := Quoted([name] + more);
    assert Body([name] + more) == (Quote(name) + ",") + ['\n'] + Body(more) by {
      assert q[0] == Quote(name);
      assert q[1..] == Quoted(more);
    }
    SplitOnAppend(Quote(name) + ",", '\n', Body(more));
  }

  lemma UnquoteQuote(name: string)
    ensures Unquote(Quote(name)) == Some(name)
  {
    var l := Quote(name);
    assert l[..3] == "  '";
    assert l[3..|l| - 1] == name;
  }

  lemma {:induction false} ParseItems(names: seq<string>)
    requires names != []
    ensures ParseItemLines(ItemLines(names)) == Some(names)
    decreases |names|
  {
    var lines := ItemLines(names);
    UnquoteQuote(names[0]);
    if |names| == 1 {
      assert names == [names[0]];
    } else {
      var l := lines[0];
      assert l == Quote(names[0]) + ",";
      assert l[..|l| - 1] == Quote(names[0]);
      assert lines[1..] == ItemLines(names[1..]);
      ParseItems(names[1..]);
      assert names == [names[0]] + names[1..];
    }
  }

  /** The rendered literal splits into the header, one line per name (or one empty line), and the footer. */
  lemma RenderedLines(names: seq<string>)
    requires SingleLine(names)
    ensures SplitOn(RenderFeaturedArray(names), '\n') ==
      [Header] + (if names == [] then [""] else ItemLines(names)) + [Footer]
  {
    HeaderLine(names);
    if names == [] {
      EmptyBody();
    } else {
      SplitItems(names);
      var items := ItemLines(names);
      assert [Header] + (items + [Footer]) == [Header] + items + [Footer];
    }
  }

  /** The header is the first line of the literal; the rest is the item block. */
  lemma HeaderLine(names: seq<string>)
    ensures SplitOn(RenderFeaturedArray(names), '\n') == [Header] + SplitOn(Body(names), '\n')
  {
    assert RenderFeaturedArray(names) == Header + ['\n'] + Body(names);
    HeaderIsOneLine();
    SplitOnAppend(Header, '\n', Body(names));
  }

  lemma HeaderIsOneLine()
    ensures '\n' !in Header
  {
    var h := "const FEATURED_PROJECTS = [";
    assert h == Header;
    assert forall i :: 0 <= i < |h| ==> h[i] != '\n';
  }

  lemma EmptyBody()
    ensures SplitOn(Body([]), '\n') == ["", Footer]
  {
    assert Body([]) == "" + ['\n'] + Footer;
    SplitOnAppend("", '\n', Footer);
    NoNewlineSplit(Footer);
  }

  /** The literal written into lib/github.ts reads back as exactly the submitted names, in order. */
  lemma RenderParseRoundTrip(names: seq<string>)
    requires SingleLine(names)
    ensures ParseFeaturedArray(RenderFeaturedArray(names)) == Some(names)
  {
    RenderedLines(names);
    var lines := SplitOn(RenderFeaturedArray(names), '\n');
    if names != [] {
      assert lines[1..|lines| - 1] == ItemLines(names);
      assert ItemLines(names)[0][0] == ' ';
      ParseItems(names);
    } else {
      assert lines[1..|lines| - 1] == [""];
    }
  }
}
