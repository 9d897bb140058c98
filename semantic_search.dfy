/** The `semantic-search` edge function: it answers a query with catalog
    courses, either in the order an AI model ranked their ids, or, when the
    model cannot be used, by a keyword match over the catalog. */
module SemanticSearch {
  import opened Wrappers
  import opened Seqs
  import opened Text
  import opened Tables

  /** The keyword fallback returns at most this many courses. */
  const FallbackLimit: nat := 8

  datatype Method = Ai | Keyword

  /** The JSON body of the reply: an error with its HTTP status, or a course
      list tagged with the method that produced it (`total` only on the AI path). */
  datatype Response =
    | Failure(status: nat, message: string)
    | Found(courses: seq<Course>, via: Method, total: Option<nat>)

  /** What the AI gateway's HTTP reply turns out to be: a non-OK status, an OK
      status whose body is not JSON, or a JSON body with the optional text of
      the first choice. */
  datatype GatewayReply = NotOk | Unreadable | Answered(content: Option<string>)

  /** What `JSON.parse` makes of the cleaned reply: a syntax error, an array
      (of the id strings it holds), or some other JSON value. */
  datatype Parsed = SyntaxError | IdArray(ids: seq<string>) | NotArray

  /** The world the handler reads besides the request body: the API key, the
      `courses` table (`None` when the query failed), the gateway's reply and
      the parser. */
  datatype Backend = Backend(
    apiKey: Option<string>,
    courses: Option<seq<Course>>,
    reply: GatewayReply,
    parse: string -> Parsed)

  /** The keyword rule: the query occurs, ignoring case, in the title, the
      description or the category. */
  predicate Matches(c: Course, query: string) {
    ContainsIgnoringCase(c.title, query)
    || (c.description.Some? && ContainsIgnoringCase(c.description.value, query))
    || (c.category.Some? && ContainsIgnoringCase(c.category.value, query))
  }

  /** The fallback list: the first matching courses, in catalog order. */
  function KeywordFallback(catalog: seq<Course>, query: string): (r: seq<Course>)
    ensures |r| <= FallbackLimit
    ensures forall c :: c in r ==> c in catalog && Matches(c, query)
    ensures IsSubseq(r, catalog)
    ensures r <= Filter(catalog, c => Matches(c, query))
    ensures |r| < FallbackLimit ==> forall c :: c in catalog && Matches(c, query) ==> c in r
  {
    var all := Filter(catalog, c => Matches(c, query));
    if |all| <= FallbackLimit then all
    else
      PrefixOfSubseq(all, catalog, FallbackLimit);
      assert forall c :: c in all[..FallbackLimit] ==> c in all;
      all[..FallbackLimit]
  }

  /** `replace(/```json\n?|\n?```/g, '')`: scanning left to right, every fence
      marker is removed, together with the newline after an opening marker or
      before a closing one. */
  function StripFences(s: string): (r: string)
    ensures |r| <= |s|
    decreases |s|
  {
    if s == [] then []
    else
      var m := MarkerLength(s);
      if m > 0 then StripFences(s[m..]) else [s[0]] + StripFences(s[1..])
  }

  /** The length of the fence marker `s` starts with, the longest one first:
      "```json" and a newline, "```json", a newline and "```", or "```";
      0 when there is none. */
  function MarkerLength(s: string): (m: nat)
    ensures m <= |s|
    ensures s == [] || (s[0] != '`' && (s[0] != '\n' || |s| < 2 || s[1] != '`')) ==> m == 0
  {
    if |s| >= 3 && s[0] == '`' && s[1] == '`' && s[2] == '`' then
      if |s| >= 7 && s[3] == 'j' && s[4] == 's' && s[5] == 'o' && s[6] == 'n' then
        if |s| >= 8 && s[7] == '\n' then 8 else 7
      else 3
    else if |s| >= 4 && s[0] == '\n' && s[1] == '`' && s[2] == '`' && s[3] == '`' then 4
    else 0
  }

  /** The text handed to the parser: the reply without its fence markers and
      without white space at either end. */
  function CleanReply(s: string): (r: string)
    ensures |r| <= |s|
    ensures r == [] || (!IsJsSpace(r[0]) && !IsJsSpace(r[|r| - 1]))
  {
    Trim(StripFences(s))
  }

  /** A character that starts no fence marker passes through. */
  lemma StripCons(c: char, t: string)
    requires c != '`'
    requires t == [] || t[0] != '`'
    ensures StripFences([c] + t) == [c] + StripFences(t)
  {
    var s := [c] + t;
    assert s[0] == c && s[1..] == t;
    assert |s| >= 2 ==> s[1] == t[0];
    assert MarkerLength(s) == 0;
  }

  /** Text without backticks, followed by text that does not start with one,
      passes through fence stripping untouched. */
  lemma {:induction false} StripPlain(p: string, rest: string)
    requires '`' !in p
    requires rest == [] || rest[0] != '`'
    ensures StripFences(p + rest) == p + StripFences(rest)
    decreases |p|
  {
    if p != [] {
      var t := p[1..] + rest;
      assert p[0] in p;
      assert t == [] || t[0] != '`' by {
        if p[1..] != [] { assert t[0] == p[1] && p[1] in p; }
      }
      assert p + rest == [p[0]] + t;
      StripCons(p[0], t);
      StripPlain(p[1..], rest);
      assert p == [p[0]] + p[1..];
    } else {
      assert p + rest == rest;
    }
  }

  /** A payload inside a "```json" fence reaches the parser as its trimmed inner text. */
  lemma FencedPayload(p: string)
    requires '`' !in p
    ensures CleanReply("```json\n" + p + "\n```") == Trim(p)
  {
    var open, close := "```json\n", "\n```";
    var s := open + p + close;
    assert s[..8] == open;
    assert MarkerLength(s) == 8;
    assert s[8..] == p + close;
    StripPlain(p, close);
    assert MarkerLength(close) == 4;
    assert close[4..] == [];
    assert StripFences(close) == [];
    assert p + [] == p;
  }


  /** An unfenced payload reaches the parser trimmed and otherwise unchanged. */
  lemma UnfencedPayload(p: string)
    requires '`' !in p
    ensures CleanReply(p) == Trim(p)
  {
    StripPlain(p, []);
    assert p + [] == p;
  }

  /** The courses an id contributes: its first course, or none. */
  function CourseOf(catalog: seq<Course>, id: string): (r: seq<Course>)
    ensures |r| <= 1
    ensures forall c :: c in r ==> c in catalog && c.id == id
  {
    match Find(catalog, id) case Some(c) => [c] case None => []
  }

  /** `ids.map(id => courses.find(c => c.id === id)).filter(Boolean)`. */
  function Resolve(ids: seq<string>, catalog: seq<Course>): (r: seq<Course>)
    ensures |r| <= |ids|
    ensures forall c :: c in r ==> c in catalog && c.id in ids
  {
    if ids == [] then [] else CourseOf(catalog, ids[0]) + Resolve(ids[1..], catalog)
  }

  /** The ids the catalog knows. */
  predicate Known(catalog: seq<Course>, id: string) {
    Find(catalog, id).Some?
  }

  lemma {:induction false} ResolveAppend(a: seq<string>, b: seq<string>, catalog: seq<Course>)
    ensures Resolve(a + b, catalog) == Resolve(a, catalog) + Resolve(b, catalog)
  {
    if a == [] {
      assert a + b == b;
    } else {
      assert (a + b)[0] == a[0] && (a + b)[1..] == a[1..] + b;
      ResolveAppend(a[1..], b, catalog);
    }
  }

  /** Position by position, `r` holds the first course of each id of `known`. */
  predicate ResolvesEach(r: seq<Course>, known: seq<string>, catalog: seq<Course>) {
    |r| == |known| && forall k :: 0 <= k < |r| ==> Find(catalog, known[k]) == Some(r[k])
  }

  lemma ResolvesCons(c: Course, id: string, r: seq<Course>, rest: seq<string>, catalog: seq<Course>)
    requires ResolvesEach(r, rest, catalog) && Find(catalog, id) == Some(c)
    ensures ResolvesEach([c] + r, [id] + rest, catalog)
  {
    var all, known := [c] + r, [id] + rest;
    forall k | 0 <= k < |all| ensures Find(catalog, known[k]) == Some(all[k]) {
      if k > 0 {
        assert all[k] == r[k - 1] && known[k] == rest[k - 1];
      }
    }
  }

  /** The resolved list has, position by position, the first course of each
      known id, in id order; unknown ids leave no trace. Repeated ids therefore
      repeat their course, and nothing caps the length. */
  lemma {:induction false} ResolveKnown(ids: seq<string>, catalog: seq<Course>)
    ensures ResolvesEach(Resolve(ids, catalog), Filter(ids, id => Known(catalog, id)), catalog)
  {
    if ids != [] {
      ResolveKnown(ids[1..], catalog);
      var rest := Filter(ids[1..], id => Known(catalog, id));
      var r := Resolve(ids[1..], catalog);
      if Known(catalog, ids[0]) {
        var c := Find(catalog, ids[0]).value;
        assert Resolve(ids, catalog) == [c] + r;
        ResolvesCons(c, ids[0], r, rest, catalog);
      } else {
        assert Resolve(ids, catalog) == r;
      }
    }
  }

  /** Removing the unknown ids beforehand changes nothing. */
  lemma {:induction false} ResolveIgnoresUnknown(ids: seq<string>, catalog: seq<Course>)
    ensures Resolve(Filter(ids, id => Known(catalog, id)), catalog) == Resolve(ids, catalog)
  {
    if ids != [] {
      ResolveIgnoresUnknown(ids[1..], catalog);
      assert ids == [ids[0]] + ids[1..];
      var rest := Filter(ids[1..], id => Known(catalog, id));
      if Known(catalog, ids[0]) {
        assert ([ids[0]] + rest)[1..] == rest;
      }
    }
  }

  /** When every id is known, each one yields exactly its course, in order. */
  lemma ResolveAllKnown(ids: seq<string>, catalog: seq<Course>)
    requires forall k :: 0 <= k < |ids| ==> Known(catalog, ids[k])
    ensures |Resolve(ids, catalog)| == |ids|
    ensures forall k :: 0 <= k < |ids| ==> Resolve(ids, catalog)[k].id == ids[k]
  {
    FilterAll(ids, id => Known(catalog, id));
    ResolveKnown(ids, catalog);
  }

  /** The handler for a request whose body carries `query` (`None` when absent). */
  function Handle(query: Option<string>, b: Backend): (r: Response)
    ensures r.Failure? && r.status == 400 <==> query.None? || query.value == []
    ensures r.Found? && r.via == Keyword ==>
      r.total.None? && b.courses.Some? && r.courses == KeywordFallback(b.courses.value, query.value)
    ensures r.Found? && r.via == Ai ==>
      r.total == Some(|r.courses|) && b.courses.Some? && b.reply.Answered? &&
      forall c :: c in r.courses ==> c in b.courses.value
  {
    if query.None? || query.value == [] then Failure(400, "Query is required")
    else if b.apiKey.None? || b.apiKey.value == [] then Failure(500, "AI service unavailable")
    else if b.courses.None? then Failure(500, "Failed to fetch courses")
    else
      var courses, q := b.courses.value, query.value;
      var fallback := Found(KeywordFallback(courses, q), Keyword, None);
      match b.reply
      case NotOk => fallback
      case Unreadable => Failure(500, "Internal server error")
      case Answered(content) =>
        if content.None? || content.value == [] then fallback
        else Interpret(courses, q, b.parse(CleanReply(content.value)))
  }

  /** The answer once `JSON.parse` has read the cleaned reply: the keyword
      list for a syntax error, an error for a value that is not an array,
      and the resolved courses of an id array. */
  function Interpret(courses: seq<Course>, q: string, parsed: Parsed): (r: Response)
    ensures r.Failure? ==> r.status == 500
    ensures r.Found? && r.via == Keyword ==> r.total.None? && r.courses == KeywordFallback(courses, q)
    ensures r.Found? && r.via == Ai ==>
      parsed.IdArray? && r.total == Some(|r.courses|) && forall c :: c in r.courses ==> c in courses
  {
    match parsed
    case SyntaxError => Found(KeywordFallback(courses, q), Keyword, None)
    case NotArray => Failure(500, "Internal server error")
    case IdArray(ids) =>
      var found := Resolve(ids, courses);
      Found(found, Ai, Some(|found|))
  }

  /** Only the empty (or absent) query is refused; a query of spaces goes on. */
  lemma BlankQueryAccepted(query: string, b: Backend)
    requires query != [] && AllSpace(query)
    ensures Handle(Some(query), b) != Failure(400, "Query is required")
  {
  }

  /** A failed gateway call, a missing reply text and an unparsable reply all
      give the same keyword list. */
  lemma SameFallback(q: string, key: string, courses: seq<Course>, text: string, parse: string -> Parsed)
    requires q != [] && key != [] && text != [] && parse(CleanReply(text)) == SyntaxError
    ensures Handle(Some(q), Backend(Some(key), Some(courses), NotOk, parse))
         == Found(KeywordFallback(courses, q), Keyword, None)
    ensures Handle(Some(q), Backend(Some(key), Some(courses), Answered(None), parse))
         == Found(KeywordFallback(courses, q), Keyword, None)
    ensures Handle(Some(q), Backend(Some(key), Some(courses), Answered(Some([])), parse))
         == Found(KeywordFallback(courses, q), Keyword, None)
    ensures Handle(Some(q), Backend(Some(key), Some(courses), Answered(Some(text)), parse))
         == Found(KeywordFallback(courses, q), Keyword, None)
  {
  }

  /** A reply the parser reads as an array gives the resolved courses of its
      ids, tagged `ai`, with `total` counting them (see `ResolveKnown`). */
  lemma AiPath(q: string, key: string, courses: seq<Course>, text: string, parse: string -> Parsed, ids: seq<string>)
    requires q != [] && key != [] && text != [] && parse(CleanReply(text)) == IdArray(ids)
    ensures Handle(Some(q), Backend(Some(key), Some(courses), Answered(Some(text)), parse))
         == Found(Resolve(ids, courses), Ai, Some(|Resolve(ids, courses)|))
  {
    var b := Backend(Some(key), Some(courses), Answered(Some(text)), parse);
    assert Handle(Some(q), b) == Interpret(courses, q, IdArray(ids));
  }

  /** A reply that ranks nine known courses returns all nine: the cap of
      eight applies to the fallback only. */
  lemma NoCapOnAiPath(courses: seq<Course>, ids: seq<string>)
    requires |ids| == 9 && forall k :: 0 <= k < |ids| ==> Known(courses, ids[k])
    ensures |Resolve(ids, courses)| == 9 > FallbackLimit
  {
    ResolveAllKnown(ids, courses);
  }

  /** A known id given twice yields its course twice. */
  lemma DuplicateIds(courses: seq<Course>, id: string)
    requires Known(courses, id)
    ensures Resolve([id, id], courses) == [Find(courses, id).value, Find(courses, id).value]
  {
    assert [id, id][1..] == [id];
  }
}
