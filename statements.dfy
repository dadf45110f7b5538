/** Statement preparation: the parse cache (`$parsed`) and the routing of
    `prepare`, `build` and `queryOpt` between the placeholder parser, the
    formatter and plain text. The parser and the formatter are an external
    package; here they are functions that may fail with a message. */
module Statements {
  import opened Wrappers
  import opened Values
  import opened Errors

  /** A part of a parsed template: literal SQL or a placeholder. */
  datatype Part = Literal(text: string) | Placeholder(spec: string)

  /** A statement node: `PlainNode` is finished SQL text; a template is
      what the parser makes of text with placeholders. */
  datatype Node = PlainNode(sql: string) | Template(parts: seq<Part>)

  /** The `string|Node` argument of `build` and `queryOpt`. */
  datatype Statement = Text(text: string) | Given(node: Node)

  type Parser = string -> Result<Node, string>

  /** `format($node, $params, $escape)`: the SQL text of the built PlainNode. */
  type Formatter = (Node, seq<Value>) -> Result<string, string>

  /** `$parsed`: statement text to parsed node, in insertion order. */
  type Cache = seq<(string, Node)>

  /** The cache is trimmed before an insertion once it holds more than this. */
  const Threshold: nat := 100

  function Keys(c: Cache): (ks: seq<string>)
    ensures |ks| == |c|
    ensures forall i :: 0 <= i < |c| ==> ks[i] == c[i].0
  {
    seq(|c|, i requires 0 <= i < |c| => c[i].0)
  }

  /** A PHP array has each key at most once. */
  predicate DistinctKeys(c: Cache)
  {
    forall i, j :: 0 <= i < j < |c| ==> c[i].0 != c[j].0
  }

  /** What every state of `$parsed` satisfies: distinct keys and at most
      Threshold + 1 entries. */
  predicate CacheValid(c: Cache)
  {
    DistinctKeys(c) && |c| <= Threshold + 1
  }

  /** `isset($parsed[$text]) ? $parsed[$text] : …`. */
  function Find(c: Cache, text: string): (r: Option<Node>)
    ensures r.None? <==> forall i :: 0 <= i < |c| ==> c[i].0 != text
    ensures r.Some? ==> exists i :: 0 <= i < |c| && c[i] == (text, r.value)
  {
    if |c| == 0 then None
    else if c[0].0 == text then Some(c[0].1)
    else
      var r := Find(c[1..], text);
      assert r.Some? ==> exists i :: 1 <= i < |c| && c[i] == (text, r.value) by {
        if r.Some? {
          var i :| 0 <= i < |c| - 1 && c[1..][i] == (text, r.value);
          assert c[i + 1] == (text, r.value);
        }
      }
      r
  }

  /** A cache state and what the operation gave back. */
  datatype Cached<T> = Cached(cache: Cache, result: Result<T, Throwable>)

  /** `parse($statement)`: a hit returns the stored node; a miss first drops
      the oldest entry when more than Threshold are held, then parses and,
      if the parser succeeded, appends the new entry. */
  function Parse(parser: Parser, c: Cache, text: string): Cached<Node>
  {
    match Find(c, text)
    case Some(n) => Cached(c, Success(n))
    case None =>
      var kept := if |c| > Threshold then c[1..] else c;
      match parser(text)
      case Success(n) => Cached(kept + [(text, n)], Success(n))
      case Failure(m) => Cached(kept, Failure(ParserError(m)))
  }

  /** `strpos($statement, '{') !== false`. */
  predicate HasPlaceholder(text: string)
  {
    '{' in text
  }

  /** `prepare($statement)`. */
  function Prepare(parser: Parser, c: Cache, text: string): Cached<Node>
  {
    if HasPlaceholder(text) then Parse(parser, c, text) else Cached(c, Success(PlainNode(text)))
  }

  /** `build($statement, ...$params)`: a string is turned into a node
      (through `prepare` when it has a placeholder, as a PlainNode
      otherwise), a node is taken as given, and the formatter applies the
      parameters. */
  function Build(parser: Parser, formatter: Formatter, c: Cache, st: Statement, params: seq<Value>): Cached<Node>
  {
    var node :=
      match st
      case Given(n) => Cached(c, Success(n))
      case Text(t) => if HasPlaceholder(t) then Prepare(parser, c, t) else Cached(c, Success(PlainNode(t)));
    match node.result
    case Failure(e) => Cached(node.cache, Failure(e))
    case Success(n) =>
      match formatter(n, params)
      case Success(sql) => Cached(node.cache, Success(PlainNode(sql)))
      case Failure(m) => Cached(node.cache, Failure(FormatterError(m)))
  }

  /** The text `queryOpt` sends: a PlainNode argument is used as it is,
      anything else is built first. */
  function StatementSql(parser: Parser, formatter: Formatter, c: Cache, st: Statement, params: seq<Value>): (r: Cached<string>)
  {
    if st.Given? && st.node.PlainNode? then Cached(c, Success(st.node.sql))
    else
      var b := Build(parser, formatter, c, st, params);
      match b.result
      case Failure(e) => Cached(b.cache, Failure(e))
      case Success(n) => Cached(b.cache, Success(n.sql))
  }

  // ----- the cache -----

  /** A hit returns the stored node and leaves the cache, its order
      included, as it was; the parser is not consulted. */
  lemma ParseHit(parser: Parser, c: Cache, text: string, n: Node)
    requires DistinctKeys(c)
    requires (text, n) in c
    ensures Parse(parser, c, text) == Cached(c, Success(n))
  {
    var i :| 0 <= i < |c| && c[i] == (text, n);
    var j :| 0 <= j < |c| && c[j] == (text, Find(c, text).value);
    assert i == j;
  }

  /** A miss on a cache of at most Threshold entries appends the new entry
      and evicts nothing. */
  lemma ParseMissAppends(parser: Parser, c: Cache, text: string)
    requires forall i :: 0 <= i < |c| ==> c[i].0 != text
    requires |c| <= Threshold
    requires parser(text).Success?
    ensures Parse(parser, c, text) == Cached(c + [(text, parser(text).value)], Success(parser(text).value))
  {
  }

  /** A miss on a cache of more than Threshold entries removes exactly the
      oldest entry before it appends the new one. */
  lemma ParseMissEvicts(parser: Parser, c: Cache, text: string)
    requires forall i :: 0 <= i < |c| ==> c[i].0 != text
    requires |c| > Threshold
    requires parser(text).Success?
    ensures Parse(parser, c, text).cache == c[1..] + [(text, parser(text).value)]
    ensures Parse(parser, c, text).result == Success(parser(text).value)
  {
  }

  /** A parser failure is passed on as a ParserException; the eviction that
      preceded the call to the parser has still happened. */
  lemma ParseFailure(parser: Parser, c: Cache, text: string)
    requires forall i :: 0 <= i < |c| ==> c[i].0 != text
    requires parser(text).Failure?
    ensures Parse(parser, c, text) ==
            Cached(if |c| > Threshold then c[1..] else c, Failure(ParserError(parser(text).error)))
  {
  }

  /** The cache never holds a text twice and never more than Threshold + 1
      entries, and after a successful parse the text is in the cache with
      the node returned. */
  lemma ParseKeepsValid(parser: Parser, c: Cache, text: string)
    requires CacheValid(c)
    ensures CacheValid(Parse(parser, c, text).cache)
    ensures Parse(parser, c, text).result.Success? ==>
            (text, Parse(parser, c, text).result.value) in Parse(parser, c, text).cache
  {
    var p := Parse(parser, c, text);
    if Find(c, text).None? && parser(text).Success? {
      var kept := if |c| > Threshold then c[1..] else c;
      assert p.cache == kept + [(text, parser(text).value)];
      assert p.cache[|kept|] == (text, p.result.value);
      forall i, j | 0 <= i < j < |p.cache|
        ensures p.cache[i].0 != p.cache[j].0
      {
        if j < |kept| {
          if |c| > Threshold {
            assert p.cache[i] == c[i + 1] && p.cache[j] == c[j + 1];
          }
        } else {
          if |c| > Threshold {
            assert p.cache[i] == c[i + 1];
          }
        }
      }
    }
  }

  /** A cache entry is faithful when it holds what the parser makes of its
      text. */
  predicate Faithful(parser: Parser, c: Cache)
  {
    forall i :: 0 <= i < |c| ==> parser(c[i].0) == Success(c[i].1)
  }

  /** The cache is transparent: from a faithful cache, `parse` gives what
      the parser itself gives for the text (a failure as a
      ParserException), and the cache stays faithful. */
  lemma ParseTransparent(parser: Parser, c: Cache, text: string)
    requires Faithful(parser, c)
    ensures Parse(parser, c, text).result ==
            match parser(text)
            case Success(n) => Success(n)
            case Failure(m) => Failure(ParserError(m))
    ensures Faithful(parser, Parse(parser, c, text).cache)
  {
    var p := Parse(parser, c, text);
    match Find(c, text)
    case Some(n) =>
      var i :| 0 <= i < |c| && c[i] == (text, n);
    case None =>
      var kept := if |c| > Threshold then c[1..] else c;
      assert forall i :: 0 <= i < |kept| ==> parser(kept[i].0) == Success(kept[i].1) by {
        forall i | 0 <= i < |kept|
          ensures parser(kept[i].0) == Success(kept[i].1)
        {
          if |c| > Threshold {
            assert kept[i] == c[i + 1];
          }
        }
      }
      if parser(text).Success? {
        forall i | 0 <= i < |p.cache|
          ensures parser(p.cache[i].0) == Success(p.cache[i].1)
        {
          if i < |kept| {
            assert p.cache[i] == kept[i];
          }
        }
      }
  }

  /** Parsing a sequence of texts one after the other. */
  function ParseAll(parser: Parser, c: Cache, texts: seq<string>): (r: Cache)
    decreases |texts|
  {
    if |texts| == 0 then c
    else ParseAll(parser, Parse(parser, c, texts[0]).cache, texts[1..])
  }

  function Max(a: int, b: int): int
  {
    if a < b then b else a
  }

  predicate DistinctTexts(texts: seq<string>)
  {
    forall i, j :: 0 <= i < j < |texts| ==> texts[i] != texts[j]
  }

  /** First in, first out: parsing distinct texts with a parser that
      accepts them all leaves exactly the last Threshold + 1 of them in the
      cache, oldest first. In particular the 101st text is still added
      without eviction, and the 102nd evicts the first. */
  lemma {:induction false} ParseAllKeepsNewest(parser: Parser, c: Cache, texts: seq<string>)
    requires forall i :: 0 <= i < |texts| ==> parser(texts[i]).Success?
    requires DistinctTexts(Keys(c) + texts)
    requires |c| <= Threshold + 1
    ensures Keys(ParseAll(parser, c, texts)) ==
            (Keys(c) + texts)[Max(0, |c| + |texts| - (Threshold + 1))..]
    decreases |texts|
  {
    if |texts| > 0 {
      var t := texts[0];
      var all := Keys(c) + texts;
      var drop := if |c| > Threshold then 1 else 0;
      var c1 := Parse(parser, c, t).cache;
      ParseFreshKeys(parser, c, texts);
      DistinctSuffix(all, drop);
      AllAccepted(parser, texts);
      ParseAllKeepsNewest(parser, c1, texts[1..]);
      DropDrop(all, drop, Max(0, |c1| + |texts| - 1 - (Threshold + 1)));
    }
  }

  /** One miss with a successful parse, seen on the keys: the new text is
      appended after the oldest key is dropped when the cache is full. */
  lemma ParseFreshKeys(parser: Parser, c: Cache, texts: seq<string>)
    requires |texts| > 0
    requires parser(texts[0]).Success?
    requires DistinctTexts(Keys(c) + texts)
    ensures Keys(Parse(parser, c, texts[0]).cache) + texts[1..] == (Keys(c) + texts)[if |c| > Threshold then 1 else 0..]
    ensures |Parse(parser, c, texts[0]).cache| == if |c| > Threshold then |c| else |c| + 1
  {
    var t := texts[0];
    var all := Keys(c) + texts;
    assert all[|c|] == t;
    forall i | 0 <= i < |c|
      ensures c[i].0 != t
    {
      assert all[i] == c[i].0;
    }
    var kept := if |c| > Threshold then c[1..] else c;
    var c1 := Parse(parser, c, t).cache;
    assert c1 == kept + [(t, parser(t).value)];
    var drop := if |c| > Threshold then 1 else 0;
    assert Keys(c1) == (Keys(c) + [t])[drop..] by {
      forall i | 0 <= i < |c1|
        ensures Keys(c1)[i] == (Keys(c) + [t])[drop..][i]
      {
        if i < |kept| {
          assert c1[i] == c[i + drop];
        }
      }
    }
    SuffixAppend(Keys(c) + [t], texts[1..], drop);
    assert (Keys(c) + [t]) + texts[1..] == all;
  }

  lemma DropDrop(xs: seq<string>, d: nat, k: nat)
    requires d + k <= |xs|
    ensures xs[d..][k..] == xs[d + k..]
  {
  }

  lemma SuffixAppend(a: seq<string>, b: seq<string>, d: nat)
    requires d <= |a|
    ensures a[d..] + b == (a + b)[d..]
  {
  }

  lemma DistinctSuffix(xs: seq<string>, d: nat)
    requires d <= |xs|
    requires DistinctTexts(xs)
    ensures DistinctTexts(xs[d..])
  {
    forall i, j | 0 <= i < j < |xs| - d
      ensures xs[d..][i] != xs[d..][j]
    {
      assert xs[d..][i] == xs[i + d] && xs[d..][j] == xs[j + d];
    }
  }

  lemma AllAccepted(parser: Parser, texts: seq<string>)
    requires |texts| > 0
    requires forall i :: 0 <= i < |texts| ==> parser(texts[i]).Success?
    ensures forall i :: 0 <= i < |texts[1..]| ==> parser(texts[1..][i]).Success?
  {
    forall i | 0 <= i < |texts[1..]|
      ensures parser(texts[1..][i]).Success?
    {
      assert texts[1..][i] == texts[i + 1];
    }
  }

  /** From an empty cache: 101 distinct texts all stay, and the 102nd
      evicts exactly the first one. */
  lemma EvictionStartsAtTheHundredAndSecond(parser: Parser, texts: seq<string>)
    requires forall i :: 0 <= i < |texts| ==> parser(texts[i]).Success?
    requires DistinctTexts(texts)
    ensures |texts| <= Threshold + 1 ==> Keys(ParseAll(parser, [], texts)) == texts
    ensures |texts| == Threshold + 2 ==> Keys(ParseAll(parser, [], texts)) == texts[1..]
  {
    assert Keys([]) + texts == texts;
    ParseAllKeepsNewest(parser, [], texts);
  }

  // ----- routing -----

  /** `prepare` of text without `{` gives a PlainNode of the same text,
      leaves the cache untouched and does not use the parser. */
  lemma PrepareWithoutPlaceholder(parser: Parser, c: Cache, text: string)
    requires !HasPlaceholder(text)
    ensures Prepare(parser, c, text) == Cached(c, Success(PlainNode(text)))
  {
  }

  /** `prepare` of text with `{` is the cached parse. */
  lemma PrepareWithPlaceholder(parser: Parser, c: Cache, text: string)
    requires HasPlaceholder(text)
    ensures Prepare(parser, c, text) == Parse(parser, c, text)
  {
  }

  /** What `build` makes of a node after the formatter has run. */
  function Formatted(formatter: Formatter, n: Node, params: seq<Value>): Result<Node, Throwable>
  {
    match formatter(n, params)
    case Success(sql) => Success(PlainNode(sql))
    case Failure(m) => Failure(FormatterError(m))
  }

  /** `build` of a node formats it as given and leaves the cache alone. */
  lemma BuildGiven(parser: Parser, formatter: Formatter, c: Cache, n: Node, params: seq<Value>)
    ensures Build(parser, formatter, c, Given(n), params) == Cached(c, Formatted(formatter, n, params))
  {
  }

  /** `build` of text without `{` formats a PlainNode of that text and
      leaves the cache alone. */
  lemma BuildPlainText(parser: Parser, formatter: Formatter, c: Cache, text: string, params: seq<Value>)
    requires !HasPlaceholder(text)
    ensures Build(parser, formatter, c, Text(text), params) == Cached(c, Formatted(formatter, PlainNode(text), params))
  {
  }

  /** `build` of text with `{` goes through the cached parse; a parser
      failure is passed on without formatting. */
  lemma BuildTemplateText(parser: Parser, formatter: Formatter, c: Cache, text: string, params: seq<Value>)
    requires HasPlaceholder(text)
    ensures var p := Parse(parser, c, text);
            Build(parser, formatter, c, Text(text), params) ==
            Cached(p.cache, if p.result.Failure? then p.result else Formatted(formatter, p.result.value, params))
  {
  }

  /** Whatever it is given, a successful `build` is a PlainNode. */
  lemma BuildGivesPlainNode(parser: Parser, formatter: Formatter, c: Cache, st: Statement, params: seq<Value>)
    ensures Build(parser, formatter, c, st, params).result.Success? ==>
            Build(parser, formatter, c, st, params).result.value.PlainNode?
  {
  }

  /** `queryOpt` with a PlainNode takes its text as it is: neither the
      parameters nor the formatter play a part and the cache is not
      touched. */
  lemma PlainNodeSkipsBuild(parser: Parser, formatter: Formatter, formatter2: Formatter, c: Cache,
                            sql: string, params: seq<Value>, params2: seq<Value>)
    ensures StatementSql(parser, formatter, c, Given(PlainNode(sql)), params) == Cached(c, Success(sql))
    ensures StatementSql(parser, formatter, c, Given(PlainNode(sql)), params) ==
            StatementSql(parser, formatter2, c, Given(PlainNode(sql)), params2)
  {
  }

  /** Any other statement is the text of what `build` makes of it. */
  lemma StatementSqlBuilds(parser: Parser, formatter: Formatter, c: Cache, st: Statement, params: seq<Value>)
    requires !(st.Given? && st.node.PlainNode?)
    ensures var b := Build(parser, formatter, c, st, params);
            var r := StatementSql(parser, formatter, c, st, params);
            && r.cache == b.cache
            && r.result.Success? == b.result.Success?
            && (b.result.Success? ==> r.result.value == b.result.value.sql)
            && (b.result.Failure? ==> r.result.error == b.result.error)
  {
  }

  /** Every path from a statement to SQL text keeps the cache valid. */
  lemma StatementSqlKeepsValid(parser: Parser, formatter: Formatter, c: Cache, st: Statement, params: seq<Value>)
    requires CacheValid(c)
    ensures CacheValid(StatementSql(parser, formatter, c, st, params).cache)
  {
    if st.Text? && HasPlaceholder(st.text) {
      ParseKeepsValid(parser, c, st.text);
    }
  }
}
