/**
 The values that flow between the agents: search records are Python dicts from
 string keys to strings or None, provider calls return a list or raise, and the
 language-model calls answer with a response text or raise.
 */
module Records {

  /** A dict value: the providers of this pipeline only ever store strings or None. */
  datatype Value = Str(s: string) | Null

  /** Python truthiness of a value: `None` and the empty string are false, every other
      string is true. */
  predicate Truthy(v: Value)
    ensures Truthy(v) <==> v != Null && v != Str("")
  {
    v.Str? && v.s != ""
  }

  /** How an f-string renders a value: a string as itself, `str(None)` as "None". */
  function Render(v: Value): (r: string)
    ensures v.Str? ==> r == v.s
    ensures v == Null ==> r == "None"
  {
    match v
    case Str(s) => s
    case Null => "None"
  }

  /** A search record: a dict with string keys. */
  type Fields = map<string, Value>

  /** `d.get(key, default)`. */
  function Get(d: Fields, key: string, default: Value): (v: Value)
    ensures key in d ==> v == d[key]
    ensures key !in d ==> v == default
  {
    if key in d then d[key] else default
  }

  /** The key a search record's section tag is stored under. */
  const SectionKey := "section"

  /** One element of a list that a provider returned: a dict, a string or anything else. */
  datatype Element = DictItem(fields: Fields) | StrItem(text: string) | OtherItem

  /** What awaiting a provider call with `return_exceptions=True` yields: its list, or the
      exception it raised. */
  datatype Outcome = Items(elems: seq<Element>) | Failed(error: string)

  /** A language-model call: the response's `content`, or the message of the exception
      it raised. */
  datatype Reply = Ok(content: string) | Err(message: string)
}
