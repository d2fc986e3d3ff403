/**
 * `benchbase_runner.py`: the rewriting of a BenchBase XML configuration by
 * `update_config_file`, the paths `run_benchmark` and `copy_config_to_benchbase`
 * derive, and the throughput lookup of `parse_summary_json`. Reading and
 * writing files, `os.system` and the clean-up of the results directory are not
 * modelled: file contents come in as parameters and the written content goes
 * out as a result.
 */
module BenchbaseRunner {
  import opened Wrappers
  import opened Text
  import opened Paths
  import opened Json

  // ---------------------------------------------------------------------------
  // `re.sub(r'<tag>.*?</tag>', repl, content)`
  // ---------------------------------------------------------------------------

  function Open(tag: string): string { "<" + tag + ">" }

  function Close(tag: string): string { "</" + tag + ">" }

  /**
   * The lazy `.*?` followed by `close`: the end of the first `close` found from
   * position `k` on, provided no newline comes before it (`.` does not match a
   * newline).
   */
  function CloseEnd(s: string, close: string, k: nat): (r: Option<nat>)
    requires k <= |s|
    decreases |s| - k
    ensures r.Some? ==> k + |close| <= r.value <= |s|
  {
    if OccursAt(s, close, k) then Some(k + |close|)
    else if k < |s| && s[k] != '\n' then CloseEnd(s, close, k + 1)
    else None
  }

  /** The length of the element `<tag>…</tag>` at the start of `s`, if one starts there. */
  function ElementAt(s: string, tag: string): (r: Option<nat>)
    ensures r.Some? ==> |Open(tag)| + |Close(tag)| <= r.value <= |s|
  {
    if StartsWith(s, Open(tag)) then CloseEnd(s, Close(tag), |Open(tag)|) else None
  }

  /**
   * `re.sub(r'<tag>.*?</tag>', repl, s)` with an already expanded replacement:
   * scanning from the left, each element found is replaced and the scan goes
   * on after it.
   */
  function Sub(s: string, tag: string, repl: string): string
    decreases |s|
  {
    if s == [] then []
    else
      var m := ElementAt(s, tag);
      if m.Some? then repl + Sub(s[m.value..], tag, repl)
      else [s[0]] + Sub(s[1..], tag, repl)
  }

  /** Where no opening tag starts, the first character is copied and the scan moves on by one. */
  lemma SubStep(s: string, tag: string, repl: string)
    requires s != [] && !StartsWith(s, Open(tag))
    ensures Sub(s, tag, repl) == [s[0]] + Sub(s[1..], tag, repl)
  {
    assert ElementAt(s, tag).None?;
  }

  /** Text before the first place an opening tag starts is copied unchanged. */
  lemma {:induction false} SubKeepsPrefix(pre: string, rest: string, tag: string, repl: string)
    requires forall k :: 0 <= k < |pre| ==> !StartsWith((pre + rest)[k..], Open(tag))
    ensures Sub(pre + rest, tag, repl) == pre + Sub(rest, tag, repl)
  {
    if pre != [] {
      var s := pre + rest;
      assert s[0..] == s;
      SubStep(s, tag, repl);
      assert s[1..] == pre[1..] + rest;
      forall k | 0 <= k < |pre[1..]| ensures !StartsWith((pre[1..] + rest)[k..], Open(tag)) {
        assert (pre[1..] + rest)[k..] == s[k + 1..];
      }
      SubKeepsPrefix(pre[1..], rest, tag, repl);
      assert [pre[0]] + pre[1..] == pre;
    } else {
      assert pre + rest == rest;
    }
  }

  /** A text in which no opening tag starts is left unchanged. */
  lemma SubWithoutTagUnchanged(s: string, tag: string, repl: string)
    requires forall k :: 0 <= k < |s| ==> !StartsWith(s[k..], Open(tag))
    ensures Sub(s, tag, repl) == s
  {
    assert s + [] == s;
    SubKeepsPrefix(s, [], tag, repl);
  }

  lemma {:induction false} CloseEndSkips(s: string, close: string, k: nat, e: nat)
    requires k <= e && e + |close| <= |s|
    requires forall j :: k <= j < e ==> s[j] != '\n' && !OccursAt(s, close, j)
    requires OccursAt(s, close, e)
    ensures CloseEnd(s, close, k) == Some(e + |close|)
    decreases e - k
  {
    if k < e {
      CloseEndSkips(s, close, k + 1, e);
    }
  }

  /**
   * A single-line element whose content holds no `<` is replaced as a whole,
   * and the scan goes on right after its closing tag.
   */
  lemma SubReplacesElement(tag: string, body: string, post: string, repl: string)
    requires '\n' !in body && '<' !in body
    ensures Sub(Open(tag) + body + Close(tag) + post, tag, repl) == repl + Sub(post, tag, repl)
  {
    var s := Open(tag) + body + Close(tag) + post;
    var o, e := |Open(tag)|, |Open(tag)| + |body|;
    assert s[..o] == Open(tag);
    assert s[e..e + |Close(tag)|] == Close(tag);
    forall j | o <= j < e ensures s[j] != '\n' && !OccursAt(s, Close(tag), j) {
      assert s[j] == body[j - o] && body[j - o] in body;
      assert !OccursAt(s, Close(tag), j) by {
        if j + |Close(tag)| <= |s| { assert s[j..j + |Close(tag)|][0] == s[j]; }
      }
    }
    CloseEndSkips(s, Close(tag), o, e);
    assert s[e + |Close(tag)|..] == post;
  }

  /** An opening tag whose line ends before any closing tag is not an element. */
  lemma UnclosedLineNotElement(tag: string, body: string, rest: string)
    requires '<' !in body && '\n' !in body
    ensures ElementAt(Open(tag) + body + "\n" + rest, tag).None?
  {
    var s := Open(tag) + body + "\n" + rest;
    var o, e := |Open(tag)|, |Open(tag)| + |body|;
    assert s[..o] == Open(tag);
    assert s[e] == '\n';
    forall j | o <= j <= e ensures !OccursAt(s, Close(tag), j) {
      assert s[j] != '<' by {
        if j < e { assert s[j] == body[j - o] && body[j - o] in body; }
      }
      if j + |Close(tag)| <= |s| { assert s[j..j + |Close(tag)|][0] == s[j]; }
    }
    CloseEndStopsAtNewline(s, Close(tag), o, e);
  }

  lemma {:induction false} CloseEndStopsAtNewline(s: string, close: string, k: nat, e: nat)
    requires k <= e < |s| && s[e] == '\n'
    requires forall j :: k <= j <= e ==> !OccursAt(s, close, j)
    ensures CloseEnd(s, close, k).None?
    decreases e - k
  {
    if k < e {
      CloseEndStopsAtNewline(s, close, k + 1, e);
    }
  }

  // ---------------------------------------------------------------------------
  // The replacement template of `re.sub`
  // ---------------------------------------------------------------------------

  /** The escapes `re` expands in a replacement template, besides group references. */
  function EscapeChar(c: char): Option<char> {
    match c
    case 'a' => Some(7 as char)
    case 'b' => Some(8 as char)
    case 'f' => Some(12 as char)
    case 'n' => Some('\n')
    case 'r' => Some('\r')
    case 't' => Some('\t')
    case 'v' => Some(11 as char)
    case '\\' => Some('\\')
    case _ => None
  }

  predicate IsAsciiLetter(c: char) {
    'a' <= c <= 'z' || 'A' <= c <= 'Z'
  }

  /**
   * The replacement string `re.sub` inserts for the template `t`, or `None` when
   * `re` rejects the template: a trailing backslash, a backslash before an
   * unknown letter, and (as the pattern has no groups) a group reference.
   * Any other backslash stays in place together with the character after it.
   */
  function ExpandTemplate(t: string): (r: Option<string>)
    decreases |t|
  {
    if t == [] then Some([])
    else if t[0] != '\\' then
      var rest := ExpandTemplate(t[1..]);
      if rest.None? then None else Some([t[0]] + rest.value)
    else if |t| == 1 then None
    else
      var c := t[1];
      if c == 'g' || IsDigit(c) || (IsAsciiLetter(c) && EscapeChar(c).None?) then None
      else
        var e := if EscapeChar(c).Some? then [EscapeChar(c).value] else ['\\', c];
        var rest := ExpandTemplate(t[2..]);
        if rest.None? then None else Some(e + rest.value)
  }

  /** A template without backslashes is inserted literally. */
  lemma {:induction false} PlainTemplate(t: string)
    requires '\\' !in t
    ensures ExpandTemplate(t) == Some(t)
  {
    if t != [] {
      assert t[0] in t;
      assert forall c :: c in t[1..] ==> c in t;
      PlainTemplate(t[1..]);
      assert [t[0]] + t[1..] == t;
    }
  }

  /** `s` with every backslash doubled. */
  function EscapeBackslashes(s: string): (r: string)
    ensures |r| >= |s|
  {
    if s == [] then []
    else (if s[0] == '\\' then "\\\\" else [s[0]]) + EscapeBackslashes(s[1..])
  }

  /** Doubling the backslashes of a value makes `re.sub` insert it literally. */
  lemma {:induction false} EscapedTemplateRoundTrip(s: string)
    ensures ExpandTemplate(EscapeBackslashes(s)) == Some(s)
  {
    if s != [] {
      EscapedTemplateRoundTrip(s[1..]);
      var t := EscapeBackslashes(s);
      if s[0] == '\\' {
        assert t[0] == '\\' && t[1] == '\\' && t[2..] == EscapeBackslashes(s[1..]);
        assert [s[0]] + s[1..] == s;
      } else {
        assert t[0] == s[0] && t[1..] == EscapeBackslashes(s[1..]);
        assert [s[0]] + s[1..] == s;
      }
    }
  }

  // ---------------------------------------------------------------------------
  // `update_config_file`
  // ---------------------------------------------------------------------------

  /** `database_config.get(key, default)` */
  function Setting(config: map<string, string>, key: string, default: string): string {
    if key in config then config[key] else default
  }

  /** The JDBC URL written into `<url>`. */
  function JdbcUrl(host: string, port: string, database: string, benchmark: string): string {
    "jdbc:postgresql://" + host + ":" + port + "/" + database
    + "?sslmode=disable&amp;ApplicationName=" + benchmark + "&amp;reWriteBatchedInserts=true"
  }

  /** The scale factor and rate rewrites for the database name, in the order they are made. */
  function Overrides(database: string): seq<(string, string)> {
    if database == "ycsb" then [("scalefactor", "3600"), ("rate", "70000")]
    else if database == "wikipedia" then [("rate", "unlimited"), ("scalefactor", "22")]
    else if database == "twitter" then [("scalefactor", "80"), ("rate", "unlimited")]
    else if database == "smallbank" then [("scalefactor", "45"), ("rate", "unlimited")]
    else []
  }

  /** The `(tag, new content)` rewrites `update_config_file` makes, in order. */
  function Rewrites(config: map<string, string>, benchmark: string): seq<(string, string)> {
    var database := Setting(config, "database", "benchbase");
    var url := JdbcUrl(Setting(config, "host", "localhost"), Setting(config, "port", "5432"), database, benchmark);
    [("url", url), ("username", Setting(config, "user", "postgres")), ("password", Setting(config, "password", ""))]
    + Overrides(database)
    + [("time", "60"), ("terminals", "16")]
  }

  /** The rewrites applied one after the other; `None` when some template is rejected. */
  function ApplyRewrites(content: string, rewrites: seq<(string, string)>): Option<string>
    decreases |rewrites|
  {
    if rewrites == [] then Some(content)
    else
      var (tag, value) := rewrites[0];
      var repl := ExpandTemplate(Open(tag) + value + Close(tag));
      if repl.None? then None else ApplyRewrites(Sub(content, tag, repl.value), rewrites[1..])
  }

  /**
   * `update_config_file`: the content written back to the file, or `None` when
   * nothing is written because the file cannot be read (`file` is `None`) or a
   * replacement template is rejected.
   */
  function UpdateConfigFile(file: Option<string>, config: map<string, string>, benchmark: string): Option<string> {
    if file.None? then None else ApplyRewrites(file.value, Rewrites(config, benchmark))
  }

  /**
   * The rewrites: `<url>` gets the JDBC URL built from the host, port and
   * database (defaults `localhost`, `5432`, `benchbase`), `<username>` and
   * `<password>` the configured user and password (defaults `postgres` and
   * empty), then the overrides of the four named databases, and finally
   * `<time>` 60 and `<terminals>` 16 whatever the database. Any other database
   * leaves `<scalefactor>` and `<rate>` alone.
   */
  lemma RewritesShape(config: map<string, string>, benchmark: string)
    ensures var rw := Rewrites(config, benchmark);
            var database := Setting(config, "database", "benchbase");
            && |rw| >= 5
            && rw[0] == ("url", "jdbc:postgresql://" + Setting(config, "host", "localhost") + ":"
                                + Setting(config, "port", "5432") + "/" + database
                                + "?sslmode=disable&amp;ApplicationName=" + benchmark
                                + "&amp;reWriteBatchedInserts=true")
            && rw[1] == ("username", if "user" in config then config["user"] else "postgres")
            && rw[2] == ("password", if "password" in config then config["password"] else "")
            && rw[|rw| - 2] == ("time", "60") && rw[|rw| - 1] == ("terminals", "16")
            && rw[3..|rw| - 2] == Overrides(database)
            && (database !in {"ycsb", "wikipedia", "twitter", "smallbank"} ==>
                  forall k :: 0 <= k < |rw| ==> rw[k].0 != "scalefactor" && rw[k].0 != "rate")
  {
    var rw := Rewrites(config, benchmark);
    var database := Setting(config, "database", "benchbase");
    assert rw[3..|rw| - 2] == Overrides(database);
  }

  /**
   * A rejected replacement template (a password with a backslash before a
   * letter, say) means nothing is written.
   */
  lemma {:induction false} RejectedTemplateWritesNothing(content: string, rewrites: seq<(string, string)>, k: nat)
    requires k < |rewrites|
    requires ExpandTemplate(Open(rewrites[k].0) + rewrites[k].1 + Close(rewrites[k].0)).None?
    ensures ApplyRewrites(content, rewrites).None?
    decreases k
  {
    var (tag, value) := rewrites[0];
    var repl := ExpandTemplate(Open(tag) + value + Close(tag));
    if k > 0 && repl.Some? {
      RejectedTemplateWritesNothing(Sub(content, tag, repl.value), rewrites[1..], k - 1);
    }
  }

  /** Rewrites whose tags never open in the text and whose templates are plain leave the text as it is. */
  lemma {:induction false} RewritesWithoutTagsUnchanged(content: string, rewrites: seq<(string, string)>)
    requires forall i :: 0 <= i < |rewrites| ==> '\\' !in rewrites[i].1 && '\\' !in rewrites[i].0
    requires forall i, k :: 0 <= i < |rewrites| && 0 <= k < |content| ==> !StartsWith(content[k..], Open(rewrites[i].0))
    ensures ApplyRewrites(content, rewrites) == Some(content)
    decreases |rewrites|
  {
    if rewrites != [] {
      var (tag, value) := rewrites[0];
      var t := Open(tag) + value + Close(tag);
      assert '\\' !in t;
      PlainTemplate(t);
      SubWithoutTagUnchanged(content, tag, t);
      RewritesWithoutTagsUnchanged(content, rewrites[1..]);
    }
  }

  // ---------------------------------------------------------------------------
  // The rewrites on a BenchBase profile
  // ---------------------------------------------------------------------------

  /**
   * A part of a BenchBase profile: markup, or a one-line element
   * `<tag>body</tag>`. Markup is anything else the file holds: the XML
   * declaration, comments, the `<parameters>` root, the `<works>` blocks and the
   * line breaks and indentation between elements.
   */
  datatype Piece = Plain(text: string) | Element(tag: string, body: string)

  /** The tags `update_config_file` rewrites. */
  const RewrittenTags: set<string> := {"url", "username", "password", "scalefactor", "rate", "time", "terminals"}

  predicate TagChar(c: char) {
    c != '<' && c != '>' && c != '/' && c != '\\' && c != '\n'
  }

  /** A tag name: non-empty, without the characters that end a tag or start an escape. */
  predicate TagName(tag: string) {
    tag != "" && forall k :: 0 <= k < |tag| ==> TagChar(tag[k])
  }

  predicate LiteralChar(c: char) {
    c != '<' && c != '\n' && c != '\\'
  }

  /** A value `re.sub` inserts as it is and that opens no tag and no new line. */
  predicate Literal(v: string) {
    forall k :: 0 <= k < |v| ==> LiteralChar(v[k])
  }

  /** `<tag>` occurs nowhere inside `text`. */
  predicate NoOpening(text: string, tag: string) {
    forall k :: 0 <= k <= |text| - |Open(tag)| ==> !OccursAt(text, Open(tag), k)
  }

  /** Markup opens none of `tags`; an element is on one line and holds no further markup. */
  predicate WellFormedPiece(x: Piece, tags: set<string>) {
    match x
    case Plain(text) => forall t :: t in tags ==> NoOpening(text, t)
    case Element(tag, body) => TagName(tag) && '<' !in body && '\n' !in body
  }

  /** The text of a piece starts a new piece of markup or an element. */
  predicate Opens(x: Piece) {
    PieceText(x) != [] && PieceText(x)[0] == '<'
  }

  /**
   * A profile whose markup opens none of `tags`. Markup is cut only where a `<`
   * starts, so that no `<tag>` is split between two pieces; any text can be cut
   * this way, by joining markup with the markup that follows it.
   */
  predicate WellFormed(profile: seq<Piece>, tags: set<string>) {
    && (forall i :: 0 <= i < |profile| ==> WellFormedPiece(profile[i], tags))
    && (forall i :: 0 <= i < |profile| - 1 ==> profile[i].Element? || Opens(profile[i + 1]))
  }

  function PieceText(x: Piece): string {
    match x
    case Plain(text) => text
    case Element(tag, body) => Open(tag) + body + Close(tag)
  }

  /** The text of a profile. */
  function Render(profile: seq<Piece>): string {
    if profile == [] then [] else PieceText(profile[0]) + Render(profile[1..])
  }

  /** Every `tag` element of the profile with the body `v`. */
  function SetTag(profile: seq<Piece>, tag: string, v: string): (r: seq<Piece>)
    ensures |r| == |profile|
    ensures forall i :: 0 <= i < |r| ==>
              r[i] == if profile[i].Element? && profile[i].tag == tag then Element(tag, v) else profile[i]
  {
    if profile == [] then []
    else [if profile[0].Element? && profile[0].tag == tag then Element(tag, v) else profile[0]]
         + SetTag(profile[1..], tag, v)
  }

  /** The rewrites applied to the profile one after the other. */
  function SetAll(profile: seq<Piece>, rewrites: seq<(string, string)>): seq<Piece>
    decreases |rewrites|
  {
    if rewrites == [] then profile
    else SetAll(SetTag(profile, rewrites[0].0, rewrites[0].1), rewrites[1..])
  }

  /** The value the last rewrite of `tag` sets, if any. */
  function LastValue(rewrites: seq<(string, string)>, tag: string): Option<string>
    decreases |rewrites|
  {
    if rewrites == [] then None
    else
      var later := LastValue(rewrites[1..], tag);
      if later.Some? then later
      else if rewrites[0].0 == tag then Some(rewrites[0].1)
      else None
  }

  /** A piece after all the rewrites: an element gets the last value set for its tag. */
  function Rewritten(x: Piece, rewrites: seq<(string, string)>): Piece {
    if x.Element? && LastValue(rewrites, x.tag).Some? then Element(x.tag, LastValue(rewrites, x.tag).value)
    else x
  }

  /** Text before an element of another tag is no place where `<tag>` starts. */
  lemma OtherElementKept(t: string, body: string, post: string, tag: string, repl: string)
    requires TagName(t) && TagName(tag) && t != tag && '<' !in body
    ensures Sub(Open(t) + body + Close(t) + post, tag, repl) == Open(t) + body + Close(t) + Sub(post, tag, repl)
  {
    var pre := Open(t) + body + Close(t);
    var s := pre + post;
    var c := |Open(t)| + |body|;
    var o := Open(tag);
    forall k | 0 <= k < |pre| ensures !StartsWith(s[k..], o) {
      if k == 0 {
        if |tag| < |t| {
          assert t[|tag|] in t;
          assert s[|tag| + 1] == t[|tag|] != o[|tag| + 1];
        } else if |tag| > |t| {
          assert tag[|t|] in tag;
          assert s[|t| + 1] == '>' != o[|t| + 1];
        } else {
          var j :| 0 <= j < |t| && t[j] != tag[j];
          assert s[j + 1] == t[j] != o[j + 1];
        }
      } else if k == c {
        assert tag[0] in tag;
        assert s[k + 1] == '/' != o[1];
      } else {
        assert s[k] != '<' by {
          if k < |Open(t)| - 1 { assert s[k] == t[k - 1] && t[k - 1] in t; }
          else if k < |Open(t)| { assert s[k] == '>'; }
          else if k < c { assert s[k] == body[k - |Open(t)|] && body[k - |Open(t)|] in body; }
          else if k == c + 1 { assert s[k] == '/'; }
          else if k < |pre| - 1 { assert s[k] == t[k - c - 2] && t[k - c - 2] in t; }
          else { assert s[k] == '>'; }
        }
      }
    }
    SubKeepsPrefix(pre, post, tag, repl);
  }

  /**
   * One `re.sub` of a tag that no markup of the profile opens sets the body of
   * every element with that tag, and leaves all other elements and all markup
   * as they were.
   */
  lemma {:induction false} SubProfile(profile: seq<Piece>, tags: set<string>, tag: string, v: string)
    requires WellFormed(profile, tags) && tag in tags && TagName(tag) && '<' !in v && '\n' !in v
    ensures Sub(Render(profile), tag, Open(tag) + v + Close(tag)) == Render(SetTag(profile, tag, v))
  {
    if profile != [] {
      var repl := Open(tag) + v + Close(tag);
      var rest := profile[1..];
      var post := Render(rest);
      WellFormedTail(profile, tags);
      SubProfile(rest, tags, tag, v);
      assert WellFormedPiece(profile[0], tags);
      var updated := SetTag(profile, tag, v);
      assert updated[1..] == SetTag(rest, tag, v);
      match profile[0]
      case Plain(text) =>
        assert NoOpening(text, tag);
        if rest != [] {
          assert Opens(rest[0]);
          RenderOpens(rest);
        }
        MarkupKept(text, post, tag, repl);
      case Element(t, body) =>
        if t == tag {
          SubReplacesElement(tag, body, post, repl);
        } else {
          OtherElementKept(t, body, post, tag, repl);
        }
    }
  }

  lemma WellFormedTail(profile: seq<Piece>, tags: set<string>)
    requires WellFormed(profile, tags) && profile != []
    ensures WellFormed(profile[1..], tags)
  {
    var rest := profile[1..];
    forall i | 0 <= i < |rest| ensures WellFormedPiece(rest[i], tags) { assert rest[i] == profile[i + 1]; }
    forall i | 0 <= i < |rest| - 1 ensures rest[i].Element? || Opens(rest[i + 1]) {
      assert rest[i] == profile[i + 1] && rest[i + 1] == profile[i + 2];
    }
  }

  /** A profile whose first piece opens renders to a text starting with `<`. */
  lemma RenderOpens(profile: seq<Piece>)
    requires profile != [] && Opens(profile[0])
    ensures Render(profile) != [] && Render(profile)[0] == '<'
  {
    assert Render(profile) == PieceText(profile[0]) + Render(profile[1..]);
  }

  /**
   * Markup in which `<tag>` does not occur is copied unchanged when what follows
   * it is empty or starts with `<`: an opening tag cannot reach across that
   * boundary, since its only `<` is its first character.
   */
  lemma MarkupKept(text: string, post: string, tag: string, repl: string)
    requires TagName(tag) && NoOpening(text, tag) && (post == [] || post[0] == '<')
    ensures Sub(text + post, tag, repl) == text + Sub(post, tag, repl)
  {
    var s := text + post;
    var o := Open(tag);
    forall k | 0 <= k < |text| ensures !StartsWith(s[k..], o) {
      if k + |o| <= |text| {
        assert !OccursAt(text, o, k);
        assert s[k..k + |o|] == text[k..k + |o|];
      } else if post != [] && |o| <= |s[k..]| {
        var j := |text| - k;
        assert o[j] != '<' by {
          if j <= |tag| { assert o[j] == tag[j - 1] && TagChar(tag[j - 1]); }
        }
        assert s[k..][..|o|][j] == s[|text|] == post[0];
      }
    }
    SubKeepsPrefix(text, post, tag, repl);
  }

  /** A rewrite whose tag is a tag name and whose value is literal. */
  predicate LiteralRewrites(rewrites: seq<(string, string)>) {
    forall i :: 0 <= i < |rewrites| ==> TagName(rewrites[i].0) && Literal(rewrites[i].1)
  }

  /** The template of a literal rewrite is inserted as it is. */
  lemma LiteralTemplate(tag: string, v: string)
    requires TagName(tag) && Literal(v)
    ensures ExpandTemplate(Open(tag) + v + Close(tag)) == Some(Open(tag) + v + Close(tag))
  {
    var t := Open(tag) + v + Close(tag);
    forall k | 0 <= k < |t| ensures t[k] != '\\' {
      if 0 < k < |tag| + 1 { assert t[k] == tag[k - 1]; }
      else if |tag| + 2 <= k < |tag| + 2 + |v| { assert t[k] == v[k - |tag| - 2]; }
      else if |tag| + 4 + |v| <= k < |t| - 1 { assert t[k] == tag[k - |tag| - 4 - |v|]; }
    }
    PlainTemplate(t);
  }

  lemma SetTagWellFormed(profile: seq<Piece>, tags: set<string>, tag: string, v: string)
    requires WellFormed(profile, tags) && TagName(tag) && '<' !in v && '\n' !in v
    ensures WellFormed(SetTag(profile, tag, v), tags)
  {
    var r := SetTag(profile, tag, v);
    forall i | 0 <= i < |r| ensures WellFormedPiece(r[i], tags) && (r[i].Element? <==> profile[i].Element?)
                                    && (r[i].Plain? ==> r[i] == profile[i]) {
      assert WellFormedPiece(profile[i], tags);
    }
    forall i | 0 <= i < |r| - 1 ensures r[i].Element? || Opens(r[i + 1]) {
      assert profile[i].Element? || Opens(profile[i + 1]);
    }
  }

  /** The tags the rewrites set all lie in `tags`. */
  predicate TagsIn(rewrites: seq<(string, string)>, tags: set<string>) {
    forall i :: 0 <= i < |rewrites| ==> rewrites[i].0 in tags
  }

  lemma LiteralRewritesTail(rewrites: seq<(string, string)>)
    requires LiteralRewrites(rewrites) && rewrites != []
    ensures LiteralRewrites(rewrites[1..])
  {
    forall i | 0 <= i < |rewrites| - 1 ensures TagName(rewrites[1..][i].0) && Literal(rewrites[1..][i].1) {
      assert rewrites[1..][i] == rewrites[i + 1];
    }
  }

  /**
   * Literal rewrites of tags that no markup of the profile opens are the
   * rewrites of its elements: the markup comes through unchanged.
   */
  lemma {:induction false} ApplyProfile(profile: seq<Piece>, tags: set<string>, rewrites: seq<(string, string)>)
    requires WellFormed(profile, tags) && LiteralRewrites(rewrites) && TagsIn(rewrites, tags)
    ensures ApplyRewrites(Render(profile), rewrites) == Some(Render(SetAll(profile, rewrites)))
    decreases |rewrites|
  {
    if rewrites != [] {
      var (tag, v) := rewrites[0];
      assert TagName(tag) && Literal(v) && tag in tags;
      assert '<' !in v && '\n' !in v by {
        forall k | 0 <= k < |v| ensures v[k] != '<' && v[k] != '\n' { assert LiteralChar(v[k]); }
      }
      LiteralTemplate(tag, v);
      SubProfile(profile, tags, tag, v);
      var next := SetTag(profile, tag, v);
      SetTagWellFormed(profile, tags, tag, v);
      LiteralRewritesTail(rewrites);
      assert TagsIn(rewrites[1..], tags) by {
        forall i | 0 <= i < |rewrites| - 1 ensures rewrites[1..][i].0 in tags { assert rewrites[1..][i] == rewrites[i + 1]; }
      }
      ApplyProfile(next, tags, rewrites[1..]);
    }
  }

  /** One rewrite followed by the others gives a piece the value the whole list sets last. */
  lemma RewrittenStep(x: Piece, rewrites: seq<(string, string)>)
    requires rewrites != []
    ensures Rewritten(if x.Element? && x.tag == rewrites[0].0 then Element(rewrites[0].0, rewrites[0].1) else x, rewrites[1..])
         == Rewritten(x, rewrites)
  {
  }

  /** After all the rewrites, each element holds the last value set for its tag, and every piece keeps its place. */
  lemma {:induction false} SetAllAt(profile: seq<Piece>, rewrites: seq<(string, string)>)
    ensures |SetAll(profile, rewrites)| == |profile|
    ensures forall i :: 0 <= i < |profile| ==> SetAll(profile, rewrites)[i] == Rewritten(profile[i], rewrites)
    decreases |rewrites|
  {
    if rewrites != [] {
      var next := SetTag(profile, rewrites[0].0, rewrites[0].1);
      SetAllAt(next, rewrites[1..]);
      forall i | 0 <= i < |profile| ensures SetAll(profile, rewrites)[i] == Rewritten(profile[i], rewrites) {
        RewrittenStep(profile[i], rewrites);
      }
    }
  }

  /** The value the last of `a + b` sets for a tag is `b`'s, or else `a`'s. */
  lemma {:induction false} LastValueAppend(a: seq<(string, string)>, b: seq<(string, string)>, tag: string)
    ensures LastValue(a + b, tag) == if LastValue(b, tag).Some? then LastValue(b, tag) else LastValue(a, tag)
  {
    if a == [] {
      assert a + b == b;
    } else {
      assert (a + b)[1..] == a[1..] + b;
      LastValueAppend(a[1..], b, tag);
    }
  }

  /** Every value a well-formed configuration writes is literal. */
  predicate LiteralSettings(config: map<string, string>, benchmark: string) {
    (forall key :: key in config ==> Literal(config[key])) && Literal(benchmark)
  }

  lemma LiteralConcat(a: string, b: string)
    requires Literal(a) && Literal(b)
    ensures Literal(a + b)
  {
    forall k | 0 <= k < |a + b| ensures LiteralChar((a + b)[k]) {
      if k >= |a| { assert (a + b)[k] == b[k - |a|]; }
    }
  }

  lemma UrlPartsLiteral()
    ensures Literal("jdbc:postgresql://") && Literal(":") && Literal("/")
  {
  }

  lemma UrlQueryLiteral()
    ensures Literal("?sslmode=disable&amp;ApplicationName=")
  {
  }

  lemma UrlOptionLiteral()
    ensures Literal("&amp;reWriteBatchedInserts=true")
  {
  }

  /** A JDBC URL built from literal parts is literal. */
  lemma JdbcUrlLiteral(host: string, port: string, database: string, benchmark: string)
    requires Literal(host) && Literal(port) && Literal(database) && Literal(benchmark)
    ensures Literal(JdbcUrl(host, port, database, benchmark))
  {
    UrlPartsLiteral();
    UrlQueryLiteral();
    UrlOptionLiteral();
    var u := "jdbc:postgresql://" + host;
    LiteralConcat("jdbc:postgresql://", host);
    LiteralConcat(u, ":");
    u := u + ":";
    LiteralConcat(u, port);
    u := u + port;
    LiteralConcat(u, "/");
    u := u + "/";
    LiteralConcat(u, database);
    u := u + database;
    LiteralConcat(u, "?sslmode=disable&amp;ApplicationName=");
    u := u + "?sslmode=disable&amp;ApplicationName=";
    LiteralConcat(u, benchmark);
    u := u + benchmark;
    LiteralConcat(u, "&amp;reWriteBatchedInserts=true");
  }

  lemma LiteralRewritesAppend(a: seq<(string, string)>, b: seq<(string, string)>)
    requires LiteralRewrites(a) && LiteralRewrites(b)
    ensures LiteralRewrites(a + b)
  {
    forall k | 0 <= k < |a + b| ensures TagName((a + b)[k].0) && Literal((a + b)[k].1) {
      if k < |a| { assert (a + b)[k] == a[k]; } else { assert (a + b)[k] == b[k - |a|]; }
    }
  }

  lemma ConnectionRewritesLiteral(url: string, user: string, password: string)
    requires Literal(url) && Literal(user) && Literal(password)
    ensures LiteralRewrites([("url", url), ("username", user), ("password", password)])
  {
    assert TagName("url") && TagName("username") && TagName("password");
  }

  lemma OverridesLiteral(database: string)
    ensures LiteralRewrites(Overrides(database))
  {
    assert TagName("scalefactor") && TagName("rate");
    assert Literal("unlimited");
  }

  lemma RunRewritesLiteral()
    ensures LiteralRewrites([("time", "60"), ("terminals", "16")])
  {
    assert TagName("time") && TagName("terminals");
  }

  /** The rewrites of a configuration whose values are literal are literal. */
  lemma RewritesLiteral(config: map<string, string>, benchmark: string)
    requires LiteralSettings(config, benchmark)
    ensures LiteralRewrites(Rewrites(config, benchmark))
  {
    var database := Setting(config, "database", "benchbase");
    var host, port := Setting(config, "host", "localhost"), Setting(config, "port", "5432");
    var user, password := Setting(config, "user", "postgres"), Setting(config, "password", "");
    assert Literal("benchbase") && Literal("localhost") && Literal("5432") && Literal("postgres") && Literal("");
    assert Literal(database) && Literal(host) && Literal(port) && Literal(user) && Literal(password);
    var url := JdbcUrl(host, port, database, benchmark);
    JdbcUrlLiteral(host, port, database, benchmark);
    var head := [("url", url), ("username", user), ("password", password)];
    ConnectionRewritesLiteral(url, user, password);
    OverridesLiteral(database);
    RunRewritesLiteral();
    LiteralRewritesAppend(head, Overrides(database));
    LiteralRewritesAppend(head + Overrides(database), [("time", "60"), ("terminals", "16")]);
  }

  lemma RewrittenTagNames()
    ensures forall t :: t in RewrittenTags ==> TagName(t)
  {
    assert TagName("url") && TagName("username") && TagName("password") && TagName("scalefactor");
    assert TagName("rate") && TagName("time") && TagName("terminals");
  }

  /** The letters the rewritten tags start with. */
  predicate RewrittenInitial(c: char) {
    c == 'u' || c == 'p' || c == 's' || c == 'r' || c == 't'
  }

  /**
   * The `<` at `k` opens none of the rewritten tags: the letter after it is no
   * rewritten tag's first letter, or it spells `<pa` followed by something
   * other than the `s` of `<password>` (as `<parameters>` does).
   */
  predicate SafeAngle(text: string, k: int)
    requires 0 <= k < |text|
  {
    k + 1 < |text| &&
    (!RewrittenInitial(text[k + 1]) || (k + 3 < |text| && text[k + 1] == 'p' && text[k + 2] == 'a' && text[k + 3] != 's'))
  }

  /** Markup in which every `<` is safe opens none of the rewritten tags. */
  lemma MarkupPiece(text: string)
    requires forall k :: 0 <= k < |text| && text[k] == '<' ==> SafeAngle(text, k)
    ensures WellFormedPiece(Plain(text), RewrittenTags)
  {
    forall t, k | t in RewrittenTags && 0 <= k <= |text| - |Open(t)| ensures !OccursAt(text, Open(t), k) {
      var o := Open(t);
      var w := text[k..k + |o|];
      assert RewrittenInitial(o[1]) && 4 <= |o|;
      if text[k] != '<' {
        assert w[0] != o[0];
      } else if !RewrittenInitial(text[k + 1]) {
        assert w[1] != o[1];
      } else if t == "password" {
        assert w[3] != o[3];
      } else {
        assert w[1] != o[1];
      }
    }
  }

  /** Text holding no `<` opens no tag. */
  lemma BlankPiece(text: string, tags: set<string>)
    requires forall k :: 0 <= k < |text| ==> text[k] != '<'
    ensures WellFormedPiece(Plain(text), tags)
  {
    forall t, k | t in tags && 0 <= k <= |text| - |Open(t)| ensures !OccursAt(text, Open(t), k) {
      assert text[k..k + |Open(t)|][0] == text[k];
    }
  }

  /** An element with a tag name and a literal body is a well-formed piece, and its text starts with `<`. */
  lemma ElementPiece(tag: string, body: string, tags: set<string>)
    requires TagName(tag) && Literal(body)
    ensures WellFormedPiece(Element(tag, body), tags) && Opens(Element(tag, body))
  {
    assert '<' !in body && '\n' !in body by {
      forall k | 0 <= k < |body| ensures body[k] != '<' && body[k] != '\n' { assert LiteralChar(body[k]); }
    }
  }

  /** `update_config_file` rewrites no tag outside `RewrittenTags`. */
  lemma RewrittenTagsOnly(config: map<string, string>, benchmark: string)
    ensures TagsIn(Rewrites(config, benchmark), RewrittenTags)
  {
    var rw := Rewrites(config, benchmark);
    var over := Overrides(Setting(config, "database", "benchbase"));
    assert forall i :: 0 <= i < |over| ==> over[i].0 in RewrittenTags;
    forall i | 0 <= i < |rw| ensures rw[i].0 in RewrittenTags {
      if 3 <= i < 3 + |over| { assert rw[i] == over[i - 3]; }
    }
  }

  /** The body `update_config_file` leaves in an element with tag `tag` whose body was `body`. */
  function WrittenBody(config: map<string, string>, benchmark: string, tag: string, body: string): string {
    var database := Setting(config, "database", "benchbase");
    if tag == "url" then JdbcUrl(Setting(config, "host", "localhost"), Setting(config, "port", "5432"), database, benchmark)
    else if tag == "username" then Setting(config, "user", "postgres")
    else if tag == "password" then Setting(config, "password", "")
    else if tag == "time" then "60"
    else if tag == "terminals" then "16"
    else if tag == "scalefactor" && database == "ycsb" then "3600"
    else if tag == "scalefactor" && database == "wikipedia" then "22"
    else if tag == "scalefactor" && database == "twitter" then "80"
    else if tag == "scalefactor" && database == "smallbank" then "45"
    else if tag == "rate" && database == "ycsb" then "70000"
    else if tag == "rate" && database in {"wikipedia", "twitter", "smallbank"} then "unlimited"
    else body
  }

  /** The last value the rewrites set for each tag, whatever the order of the overrides. */
  lemma LastValues(config: map<string, string>, benchmark: string, tag: string, body: string)
    ensures LastValue(Rewrites(config, benchmark), tag).GetOr(body) == WrittenBody(config, benchmark, tag, body)
  {
    var database := Setting(config, "database", "benchbase");
    var url := JdbcUrl(Setting(config, "host", "localhost"), Setting(config, "port", "5432"), database, benchmark);
    ConnectionThenRunLast(url, Setting(config, "user", "postgres"), Setting(config, "password", ""), Overrides(database), tag);
    OverridesLast(database, tag);
  }

  /** Which of the fixed rewrites around the overrides sets a tag last. */
  lemma ConnectionThenRunLast(url: string, user: string, password: string, over: seq<(string, string)>, tag: string)
    ensures var head := [("url", url), ("username", user), ("password", password)];
            var tail := [("time", "60"), ("terminals", "16")];
            LastValue(head + over + tail, tag)
            == if tag == "terminals" then Some("16")
               else if tag == "time" then Some("60")
               else if LastValue(over, tag).Some? then LastValue(over, tag)
               else if tag == "password" then Some(password)
               else if tag == "username" then Some(user)
               else if tag == "url" then Some(url)
               else None
  {
    var head := [("url", url), ("username", user), ("password", password)];
    var tail := [("time", "60"), ("terminals", "16")];
    LastValueAppend(head + over, tail, tag);
    LastValueAppend(head, over, tag);
    LastValuePair(tail[0], tail[1], tag);
    assert head == [head[0]] + [head[1], head[2]];
    LastValueAppend([head[0]], [head[1], head[2]], tag);
    LastValuePair(head[1], head[2], tag);
    LastValueOne(head[0], tag);
  }

  /** The scale factor and rate each named database sets, and nothing for other tags or databases. */
  lemma OverridesLast(database: string, tag: string)
    ensures LastValue(Overrides(database), tag)
            == if tag == "scalefactor" && database == "ycsb" then Some("3600")
               else if tag == "scalefactor" && database == "wikipedia" then Some("22")
               else if tag == "scalefactor" && database == "twitter" then Some("80")
               else if tag == "scalefactor" && database == "smallbank" then Some("45")
               else if tag == "rate" && database == "ycsb" then Some("70000")
               else if tag == "rate" && database in {"wikipedia", "twitter", "smallbank"} then Some("unlimited")
               else None
  {
    var over := Overrides(database);
    if over != [] {
      LastValuePair(over[0], over[1], tag);
    }
  }

  lemma LastValueOne(a: (string, string), tag: string)
    ensures LastValue([a], tag) == if a.0 == tag then Some(a.1) else None
  {
    assert [a][1..] == [];
  }

  lemma LastValuePair(a: (string, string), b: (string, string), tag: string)
    ensures LastValue([a, b], tag) == if b.0 == tag then Some(b.1) else if a.0 == tag then Some(a.1) else None
  {
    assert [a, b][1..] == [b];
    LastValueOne(b, tag);
  }

  /**
   * The profile `update_config_file` writes, for settings and a benchmark name
   * that `re.sub` inserts literally: each element keeps its place and its tag,
   * and its body becomes the value its tag gets last, whatever else the
   * profile holds (see `WrittenBody`). `<url>`, `<username>`, `<password>`,
   * `<time>` (60) and `<terminals>` (16) are always set. `<scalefactor>` and
   * `<rate>` become 3600 and 70000 for ycsb, 22 and unlimited for wikipedia,
   * 80 and unlimited for twitter, 45 and unlimited for smallbank, and are left
   * alone for any other database. Every other element and all markup (the XML
   * declaration, comments, the root and the `<works>` blocks) stay as they were.
   */
  lemma WrittenProfile(profile: seq<Piece>, config: map<string, string>, benchmark: string, i: nat)
    requires WellFormed(profile, RewrittenTags) && LiteralSettings(config, benchmark) && i < |profile|
    ensures var out := SetAll(profile, Rewrites(config, benchmark));
            && UpdateConfigFile(Some(Render(profile)), config, benchmark) == Some(Render(out))
            && |out| == |profile|
            && (profile[i].Plain? ==> out[i] == profile[i])
            && (profile[i].Element? ==>
                  out[i] == Element(profile[i].tag, WrittenBody(config, benchmark, profile[i].tag, profile[i].body)))
  {
    var rw := Rewrites(config, benchmark);
    RewritesLiteral(config, benchmark);
    RewrittenTagsOnly(config, benchmark);
    ApplyProfile(profile, RewrittenTags, rw);
    SetAllAt(profile, rw);
    if profile[i].Element? {
      LastValues(config, benchmark, profile[i].tag, profile[i].body);
    }
  }

  // ---------------------------------------------------------------------------
  // A profile as BenchBase ships them
  // ---------------------------------------------------------------------------

  /** The pieces of a profile, each well-formed, with markup cut only before a `<`. */
  lemma ProfileOfPieces(decl: string, root: string, comment: string, url: string, middle: string, time: string,
                        tail: string, tags: set<string>)
    requires WellFormedPiece(Plain(decl), tags) && WellFormedPiece(Plain(root), tags)
    requires WellFormedPiece(Plain(comment), tags) && WellFormedPiece(Plain(middle), tags)
    requires WellFormedPiece(Plain(tail), tags)
    requires Opens(Plain(root)) && Opens(Plain(comment))
    requires TagName("url") && TagName("time") && Literal(url) && Literal(time)
    ensures WellFormed([Plain(decl), Plain(root), Plain(comment), Element("url", url), Plain(middle),
                        Element("time", time), Plain(tail)], tags)
  {
    ElementPiece("url", url, tags);
    ElementPiece("time", time, tags);
  }

  /**
   * A profile laid out as BenchBase ships them: the XML declaration, the
   * `<parameters>` root over several lines, a comment and a `<works>` block.
   */
  function SampleProfile(): seq<Piece> {
    [ Plain("<?xml version=\"1.0\"?>\n"), Plain("<parameters>\n    "), Plain("<!-- Connection -->\n    "),
      Element("url", "jdbc:postgresql://localhost:5432/benchbase"),
      Plain("\n    <works>\n        <work>\n            "), Element("time", "300"),
      Plain("\n        </work>\n    </works>\n</parameters>\n") ]
  }

  lemma SampleDeclaration()
    ensures WellFormedPiece(Plain("<?xml version=\"1.0\"?>\n"), RewrittenTags)
  {
    MarkupPiece("<?xml version=\"1.0\"?>\n");
  }

  lemma SampleRoot()
    ensures WellFormedPiece(Plain("<parameters>\n    "), RewrittenTags)
  {
    MarkupPiece("<parameters>\n    ");
  }

  lemma SampleComment()
    ensures WellFormedPiece(Plain("<!-- Connection -->\n    "), RewrittenTags)
  {
    MarkupPiece("<!-- Connection -->\n    ");
  }

  lemma SampleWorks()
    ensures WellFormedPiece(Plain("\n    <works>\n        <work>\n            "), RewrittenTags)
  {
    MarkupPiece("\n    <works>\n        <work>\n            ");
  }

  lemma SampleEnd()
    ensures WellFormedPiece(Plain("\n        </work>\n    </works>\n</parameters>\n"), RewrittenTags)
  {
    MarkupPiece("\n        </work>\n    </works>\n</parameters>\n");
  }

  lemma SampleElements()
    ensures TagName("url") && TagName("time") && Literal("jdbc:postgresql://localhost:5432/benchbase") && Literal("300")
  {
  }

  /** Such a profile is in the form `WrittenProfile` describes. */
  lemma SampleProfileWellFormed()
    ensures WellFormed(SampleProfile(), RewrittenTags)
  {
    SampleDeclaration();
    SampleRoot();
    SampleComment();
    SampleWorks();
    SampleEnd();
    SampleElements();
    ProfileOfPieces("<?xml version=\"1.0\"?>\n", "<parameters>\n    ", "<!-- Connection -->\n    ",
                    "jdbc:postgresql://localhost:5432/benchbase", "\n    <works>\n        <work>\n            ", "300",
                    "\n        </work>\n    </works>\n</parameters>\n", RewrittenTags);
  }

  /**
   * On that profile `update_config_file` writes the declaration, the root, the
   * comment and the `<works>` block back as they were, sets `<url>` to the JDBC
   * URL and `<time>` to 60.
   */
  lemma SampleWritten(config: map<string, string>, benchmark: string)
    requires LiteralSettings(config, benchmark)
    ensures var p := SampleProfile();
            var out := SetAll(p, Rewrites(config, benchmark));
            && UpdateConfigFile(Some(Render(p)), config, benchmark) == Some(Render(out))
            && |out| == |p|
            && out[0] == p[0] && out[1] == p[1] && out[2] == p[2] && out[4] == p[4] && out[6] == p[6]
            && out[3] == Element("url", JdbcUrl(Setting(config, "host", "localhost"), Setting(config, "port", "5432"),
                                                Setting(config, "database", "benchbase"), benchmark))
            && out[5] == Element("time", "60")
  {
    SampleProfileWellFormed();
    ProfileWritten(SampleProfile(), config, benchmark);
  }

  /** `WrittenProfile` for the pieces at places 0 to 6 of a profile with elements at 3 and 5. */
  lemma ProfileWritten(p: seq<Piece>, config: map<string, string>, benchmark: string)
    requires WellFormed(p, RewrittenTags) && LiteralSettings(config, benchmark) && |p| == 7
    requires p[0].Plain? && p[1].Plain? && p[2].Plain? && p[4].Plain? && p[6].Plain?
    requires p[3].Element? && p[3].tag == "url" && p[5].Element? && p[5].tag == "time"
    ensures var out := SetAll(p, Rewrites(config, benchmark));
            && UpdateConfigFile(Some(Render(p)), config, benchmark) == Some(Render(out))
            && |out| == |p|
            && out[0] == p[0] && out[1] == p[1] && out[2] == p[2] && out[4] == p[4] && out[6] == p[6]
            && out[3] == Element("url", JdbcUrl(Setting(config, "host", "localhost"), Setting(config, "port", "5432"),
                                                Setting(config, "database", "benchbase"), benchmark))
            && out[5] == Element("time", "60")
  {
    WrittenProfile(p, config, benchmark, 0);
    WrittenProfile(p, config, benchmark, 1);
    WrittenProfile(p, config, benchmark, 2);
    WrittenProfile(p, config, benchmark, 3);
    WrittenProfile(p, config, benchmark, 4);
    WrittenProfile(p, config, benchmark, 5);
    WrittenProfile(p, config, benchmark, 6);
  }

  // ---------------------------------------------------------------------------
  // Paths of `run_benchmark` and `copy_config_to_benchbase`
  // ---------------------------------------------------------------------------

  /** `os.path.splitext(os.path.basename(workload_path))[0]` */
  function WorkloadName(workloadPath: string): string {
    Stem(Basename(workloadPath))
  }

  /** `stress_test_results/{benchmark}_results/{workload_name}` before it is made absolute. */
  function ResultsDir(benchmark: string, workloadPath: string): string {
    Join(Join("stress_test_results", benchmark + "_results"), WorkloadName(workloadPath))
  }

  /**
   * The results directory is `stress_test_results/{benchmark}_results/{name}`,
   * with `name` the file name of the workload without its extension (for a
   * benchmark name that does not start with `/`).
   */
  lemma ResultsDirShape(benchmark: string, workloadPath: string)
    requires benchmark == "" || benchmark[0] != '/'
    ensures ResultsDir(benchmark, workloadPath)
         == "stress_test_results/" + benchmark + "_results/" + WorkloadName(workloadPath)
    ensures '/' !in WorkloadName(workloadPath)
  {
    var name := WorkloadName(workloadPath);
    StemOfBasename(workloadPath);
    var dir := benchmark + "_results";
    assert dir[0] != '/';
    JoinChild("stress_test_results", dir);
    var parent := "stress_test_results" + "/" + dir;
    assert parent[|parent| - 1] == 's';
    assert name == "" || name[0] != '/' by { if name != "" { assert name[0] in name; } }
    JoinChild(parent, name);
  }

  /** `{benchmark.lower()}_{timestamp}.log` inside the (absolute) results directory. */
  function LogFilePath(resultsDir: string, benchmark: string, timestamp: int): string {
    Join(resultsDir, Lower(benchmark) + "_" + IntToString(timestamp) + ".log")
  }

  /** The log file lies directly in the results directory, named after the lower-cased benchmark. */
  lemma LogFileInResultsDir(resultsDir: string, benchmark: string, timestamp: int)
    requires resultsDir != "" && resultsDir[|resultsDir| - 1] != '/' && '/' !in benchmark
    ensures Dirname(LogFilePath(resultsDir, benchmark, timestamp)) == resultsDir
    ensures Basename(LogFilePath(resultsDir, benchmark, timestamp))
         == Lower(benchmark) + "_" + IntToString(timestamp) + ".log"
  {
    var low, num := Lower(benchmark), IntToString(timestamp);
    var name := low + "_" + num + ".log";
    assert '/' !in low by {
      forall k | 0 <= k < |low| ensures low[k] != '/' { assert benchmark[k] in benchmark; }
    }
    assert '/' !in num by {
      var d := NatToString(if timestamp < 0 then -timestamp else timestamp);
      assert forall k :: 0 <= k < |d| ==> d[k] != '/';
    }
    assert '/' !in "_" && '/' !in ".log";
    assert '/' !in name;
    assert name[0] in name;
    JoinChild(resultsDir, name);
    DirnameBasenameOfChild(resultsDir, name);
  }

  /** The jar path used when none is configured: `./benchbase/target/benchbase-postgres/benchbase.jar`. */
  const DefaultJar: string := "./benchbase/target" + "/" + "benchbase-postgres" + "/" + "benchbase.jar"

  /** The BenchBase root: two directory levels above the jar. */
  function BenchbaseRoot(jar: Option<string>): string {
    Dirname(Dirname(jar.GetOr(DefaultJar)))
  }

  /** Where the configuration file is copied: `{root}/benchbase-postgres/config/postgres/{basename}`. */
  function BenchbaseConfigPath(jar: Option<string>, workloadPath: string): string {
    Join(Join(Join(Join(BenchbaseRoot(jar), "benchbase-postgres"), "config"), "postgres"), Basename(workloadPath))
  }

  /**
   * For a jar at `root/dir/file`, the root is `root` and the configuration is
   * copied to `root/benchbase-postgres/config/postgres/` under its own file name.
   */
  lemma ConfigPathShape(root: string, dir: string, file: string, workloadPath: string)
    requires root != "" && root[|root| - 1] != '/'
    requires dir != "" && '/' !in dir && '/' !in file
    ensures var jar := Some(root + "/" + dir + "/" + file);
            && BenchbaseRoot(jar) == root
            && BenchbaseConfigPath(jar, workloadPath)
               == root + "/" + "benchbase-postgres" + "/" + "config" + "/" + "postgres" + "/" + Basename(workloadPath)
  {
    var jar := Some(root + "/" + dir + "/" + file);
    DirnameTwice(root, dir, file);
    assert BenchbaseRoot(jar) == root;
    var name := Basename(workloadPath);
    assert name == "" || name[0] != '/' by { BasenameIsLastComponent(workloadPath); }
    JoinThree(root, "benchbase-postgres", "config", "postgres", name);
    assert BenchbaseConfigPath(jar, workloadPath)
        == Join(Join(Join(Join(root, "benchbase-postgres"), "config"), "postgres"), name);
  }

  lemma JoinThree(root: string, a: string, b: string, c: string, name: string)
    requires root != "" && root[|root| - 1] != '/'
    requires a != "" && b != "" && c != ""
    requires a[0] != '/' && b[0] != '/' && c[0] != '/' && (name == "" || name[0] != '/')
    requires a[|a| - 1] != '/' && b[|b| - 1] != '/' && c[|c| - 1] != '/'
    ensures Join(Join(Join(Join(root, a), b), c), name) == root + "/" + a + "/" + b + "/" + c + "/" + name
  {
    var p1 := root + "/" + a;
    var p2 := p1 + "/" + b;
    var p3 := p2 + "/" + c;
    JoinChild(root, a);
    JoinChild(p1, b);
    JoinChild(p2, c);
    JoinChild(p3, name);
  }

  /** Without a configured jar the root is `./benchbase/target`. */
  lemma DefaultRoot()
    ensures BenchbaseRoot(None) == "./benchbase/target"
  {
    DirnameTwice("./benchbase/target", "benchbase-postgres", "benchbase.jar");
  }

  // ---------------------------------------------------------------------------
  // `parse_summary_json`
  // ---------------------------------------------------------------------------

  const ThroughputKey: string := "Throughput (requests/second)"

  /**
   * `parse_summary_json` on the parsed file (`None` when it cannot be read or
   * parsed): the value stored under the throughput key, returned as it is, and
   * 0.0 when the document is not an object or lacks the key.
   */
  function ParseSummaryJson(data: Option<Json>): (r: Json)
    ensures data.Some? && data.value.JObject? && (exists k :: 0 <= k < |data.value.members| && data.value.members[k].0 == ThroughputKey)
            ==> exists k :: 0 <= k < |data.value.members| && data.value.members[k] == (ThroughputKey, r)
    ensures !(data.Some? && data.value.JObject? && (exists k :: 0 <= k < |data.value.members| && data.value.members[k].0 == ThroughputKey))
            ==> r == JFloat(0.0)
  {
    if data.Some? && data.value.JObject? then Get(data.value.members, ThroughputKey).GetOr(JFloat(0.0))
    else JFloat(0.0)
  }
}
