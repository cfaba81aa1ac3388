/**
 The Tavily web-search tool (tools/web_search_tools.py). Without an API key it returns
 nothing; otherwise it asks the Tavily service and turns every element of the list it
 answers with into a record of four fields, dropping elements that are neither dicts
 nor strings. Any exception, and any answer that is not a list, gives no records.
 */
module WebSearchTools {
  import opened Records

  const TavilySource := "Tavily Web Search"
  const NoTitle := "No Title Available"
  const NoContent := "No content available."
  const StringTitle := "Web Search Result"

  /** The four keys of every record the tool returns. */
  const RecordKeys := {"title", "summary", "url", "source"}

  /** What awaiting the Tavily service gives: a list, some other value, or an exception. */
  datatype TavilyResponse = ListResponse(elems: seq<Element>) | OtherResponse | Raised(error: string)

  /** The record an element of the answer becomes: a dict is copied field by field with a
      default for each missing key, a string becomes the summary of a record with a fixed
      title, and anything else is dropped. */
  function Normalise(e: Element): (r: seq<Fields>)
    ensures |r| <= 1
    ensures r == [] <==> e.OtherItem?
    ensures r != [] ==> r[0].Keys == RecordKeys && r[0]["source"] == Str(TavilySource)
  {
    match e
    case DictItem(f) =>
      [map["title" := Get(f, "title", Str(NoTitle)), "summary" := Get(f, "content", Str(NoContent)),
           "url" := Get(f, "url", Str("")), "source" := Str(TavilySource)]]
    case StrItem(s) =>
      [map["title" := Str(StringTitle), "summary" := Str(s), "url" := Str(""), "source" := Str(TavilySource)]]
    case OtherItem => []
  }

  /** The records of a whole answer, in answer order: never more records than elements,
      and every one of the fixed shape and source. */
  function Formatted(elems: seq<Element>): (r: seq<Fields>)
    ensures |r| <= |elems|
    ensures forall k :: 0 <= k < |r| ==> r[k].Keys == RecordKeys && r[k]["source"] == Str(TavilySource)
  {
    if elems == [] then []
    else Formatted(elems[..|elems| - 1]) + Normalise(elems[|elems| - 1])
  }

  /** `search_tavily`: the key check, the service call and the formatting loop. */
  method SearchTavily(apiKey: Value, tavily: (string, nat) -> TavilyResponse, query: string, maxResults: nat := 7)
    returns (records: seq<Fields>)
    ensures !Truthy(apiKey) ==> records == []
    ensures Truthy(apiKey) && tavily(query, maxResults).ListResponse? ==> records == Formatted(tavily(query, maxResults).elems)
    ensures !tavily(query, maxResults).ListResponse? ==> records == []
  {
    if !Truthy(apiKey) {
      return [];
    }
    var response := tavily(query, maxResults);
    records := [];
    match response {
      case Raised(_) =>
      case OtherResponse =>
      case ListResponse(elems) =>
        var i := 0;
        while i < |elems|
          invariant 0 <= i <= |elems|
          invariant records == Formatted(elems[..i])
        {
          match elems[i] {
            case DictItem(f) =>
              records := records + [map["title" := Get(f, "title", Str(NoTitle)), "summary" := Get(f, "content", Str(NoContent)),
                                         "url" := Get(f, "url", Str("")), "source" := Str(TavilySource)]];
            case StrItem(s) =>
              records := records + [map["title" := Str(StringTitle), "summary" := Str(s), "url" := Str(""), "source" := Str(TavilySource)]];
            case OtherItem =>
          }
          assert elems[..i + 1][..i] == elems[..i];
          i := i + 1;
        }
        assert elems[..i] == elems;
    }
  }

  /** Answer order is kept: the records of two runs of elements are the first's, then the second's. */
  lemma {:induction false} FormattedAppend(a: seq<Element>, b: seq<Element>)
    ensures Formatted(a + b) == Formatted(a) + Formatted(b)
  {
    if b == [] {
      assert a + b == a;
    } else {
      var b' := b[..|b| - 1];
      assert (a + b)[..|a + b| - 1] == a + b' && (a + b)[|a + b| - 1] == b[|b| - 1];
      FormattedAppend(a, b');
    }
  }

  /** Exactly the elements that are neither dicts nor strings are dropped. */
  lemma {:induction false} FormattedLength(elems: seq<Element>)
    ensures |Formatted(elems)| == |elems| - OtherCount(elems)
  {
    if elems != [] {
      FormattedLength(elems[..|elems| - 1]);
    }
  }

  /** The number of elements that are neither dicts nor strings. */
  function OtherCount(elems: seq<Element>): nat {
    if elems == [] then 0
    else OtherCount(elems[..|elems| - 1]) + (if elems[|elems| - 1].OtherItem? then 1 else 0)
  }

  /** A dict keeps every value it holds, `None` included; a default is used only for a
      missing key. */
  lemma NormaliseDict(f: Fields)
    ensures var r := Normalise(DictItem(f))[0];
      (r["title"] == if "title" in f then f["title"] else Str(NoTitle))
      && (r["summary"] == if "content" in f then f["content"] else Str(NoContent))
      && (r["url"] == if "url" in f then f["url"] else Str(""))
  {
  }
}
