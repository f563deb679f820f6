/** Setting query parameters on a URL. */
module QueryParams {
  import opened Text
  import opened Sequences

  type Pair = (string, string)

  datatype Url = Url(rest: string, query: seq<Pair>)

  /** The URL library: a parsed URL that was given some other parameters is printed so that it parses back. */
  datatype UrlCodec = UrlCodec(parse: string -> Option<Url>, print_: Url -> string) {
    ghost predicate Lawful() {
      forall text, query :: parse(text).Some? && query != [] ==>
        var url := parse(text).value.(query := query);
        parse(print_(url)) == Some(url)
    }
  }

  function Not(name: string): Pair -> bool {
    (pair: Pair) => pair.0 != name
  }

  /** The last occurrence wins: all others go, and the new one is appended. */
  function SetPair(query: seq<Pair>, name: string, value: string): seq<Pair> {
    Filter(Not(name), query) + [(name, value)]
  }

  function SetQueryParam(codec: UrlCodec, url: string, name: string, value: string): string {
    match codec.parse(url)
    case None => url
    case Some(parsed) => codec.print_(parsed.(query := SetPair(parsed.query, name, value)))
  }

  method WithQueryParam(codec: UrlCodec, url: string, name: string, value: string) returns (r: string)
    ensures r == SetQueryParam(codec, url, name, value)
  {
    var parsed := codec.parse(url);
    if parsed.None? {
      return url;
    }
    var existing, query := parsed.value.query, [];
    for n := 0 to |existing|
      invariant query == Filter(Not(name), existing[..n])
    {
      assert existing[..n + 1] == existing[..n] + [existing[n]];
      FilterSnoc(Not(name), existing[..n], existing[n]);
      if existing[n].0 == name {
        continue;
      }
      query := query + [existing[n]];
    }
    assert existing[..|existing|] == existing;
    query := query + [(name, value)];
    r := codec.print_(parsed.value.(query := query));
  }

  /** Both credentials, one after the other. */
  function SetBoth(query: seq<Pair>, first: Pair, second: Pair): seq<Pair> {
    SetPair(SetPair(query, first.0, first.1), second.0, second.1)
  }

  function Others(query: seq<Pair>, a: string, b: string): seq<Pair> {
    Filter(Not(b), Filter(Not(a), query))
  }

  lemma NotTwice(query: seq<Pair>, name: string)
    ensures Filter(Not(name), Filter(Not(name), query)) == Filter(Not(name), query)
  {
    FilterKept(Not(name), query);
    FilterAll(Not(name), Filter(Not(name), query));
  }

  lemma OthersKept(query: seq<Pair>, a: string, b: string)
    ensures forall k :: 0 <= k < |Others(query, a, b)| ==>
              Others(query, a, b)[k].0 != a && Others(query, a, b)[k].0 != b
  {
    FilterKept(Not(a), query);
    FilterKept(Not(b), Filter(Not(a), query));
    var others := Others(query, a, b);
    forall k | 0 <= k < |others| ensures others[k].0 != a && others[k].0 != b {
      assert others[k] in Filter(Not(a), query);
      var j :| 0 <= j < |Filter(Not(a), query)| && Filter(Not(a), query)[j] == others[k];
      assert Not(a)(Filter(Not(a), query)[j]);
    }
  }

  /** After both are set, they stand last, once each, behind the unrelated ones in their old order. */
  lemma BothShape(query: seq<Pair>, first: Pair, second: Pair)
    ensures SetBoth(query, first, second) ==
              Others(query, first.0, second.0) + (if first.0 == second.0 then [] else [first]) + [second]
  {
    hide Filter;
    var once := Filter(Not(first.0), query);
    FilterSnoc(Not(second.0), once, first);
  }

  lemma OthersAgain(query: seq<Pair>, first: Pair, second: Pair)
    ensures Others(SetBoth(query, first, second), first.0, second.0) == Others(query, first.0, second.0)
  {
    hide Filter;
    var a, b := first.0, second.0;
    var others := Others(query, a, b);
    var middle := if a == b then [] else [first];
    BothShape(query, first, second);
    OthersKept(query, a, b);
    FilterAll(Not(a), others);
    FilterAll(Not(b), others);
    FilterAppend(Not(a), others + middle, [second]);
    FilterAppend(Not(a), others, middle);
    FilterOne(Not(a), second);
    FilterOne(Not(a), first);
    FilterNone(Not(a), []);
    var left := Filter(Not(a), SetBoth(query, first, second));
    assert left == others + if a == b then [] else [second];
    FilterAppend(Not(b), others, if a == b then [] else [second]);
    FilterOne(Not(b), second);
    FilterNone(Not(b), []);
  }

  /**
   * Setting the same two parameters again is a fixed point, even when both have one name; unrelated
   * parameters keep their order; and each of the two names occurs exactly once, at the end.
   */
  lemma SetBothTwice(query: seq<Pair>, first: Pair, second: Pair)
    ensures var once := SetBoth(query, first, second);
            && SetBoth(once, first, second) == once
            && Others(once, first.0, second.0) == Others(query, first.0, second.0)
            && once == Others(query, first.0, second.0) + (if first.0 == second.0 then [] else [first]) + [second]
            && (forall k :: 0 <= k < |Others(query, first.0, second.0)| ==>
                  Others(query, first.0, second.0)[k].0 != first.0 && Others(query, first.0, second.0)[k].0 != second.0)
  {
    hide Filter, SetPair, Others;
    BothShape(query, first, second);
    BothShape(SetBoth(query, first, second), first, second);
    OthersAgain(query, first, second);
    OthersKept(query, first.0, second.0);
  }

  lemma SetOneTwice(query: seq<Pair>, name: string, value: string)
    ensures SetPair(SetPair(query, name, value), name, value) == SetPair(query, name, value)
  {
    hide Filter;
    NotTwice(query, name);
    FilterSnoc(Not(name), Filter(Not(name), query), (name, value));
  }
}
