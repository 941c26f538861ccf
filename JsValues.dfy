/** JavaScript values and objects as the Cloud Functions see them: stored
    documents, request bodies, fetched event records and response records. */
module JsValues {

  datatype Option<+T> = None | Some(value: T)

  /** A defined JavaScript value. Numbers, arrays and nested objects are never
      inspected by the functions; they are carried with the text that their
      `String(...)` conversion yields, which is all a template literal uses. */
  datatype Value = Str(s: string) | Bool(b: bool) | Null | Other(display: string)

  /** A plain JavaScript object. A key mapped to `None` is an own property that
      holds `undefined`; a key that is absent is no property at all. Reading
      either gives `undefined`. */
  type Obj = map<string, Option<Value>>

  /** Property read `o[k]` / `o.k`: `undefined` (None) when there is no such property. */
  function Get(o: Obj, k: string): Option<Value>
  {
    if k in o then o[k] else None
  }

  /** The keys listed in `keys`, as a set. */
  function KeySet(keys: seq<string>): set<string>
  {
    set k | k in keys
  }

  /** Those of `keys` that `o` defines (reads as something other than `undefined`). */
  function DefinedKeys(keys: seq<string>, o: Obj): set<string>
  {
    set k | k in keys && Get(o, k).Some?
  }

  /** The text a template literal `${v}` substitutes for `v`. */
  function Render(v: Option<Value>): string
  {
    match v
    case None => "undefined"
    case Some(Str(s)) => s
    case Some(Bool(b)) => if b then "true" else "false"
    case Some(Null) => "null"
    case Some(Other(t)) => t
  }

  /** `src` is `prefix` followed by something. */
  predicate HasPrefix(prefix: string, src: string)
  {
    |prefix| <= |src| && src[..|prefix|] == prefix
  }

  /** The rest of `src` after `prefix`, or None when `src` does not start with it:
      the inverse of prefixing a URL base. */
  function StripPrefix(prefix: string, src: string): (r: Option<string>)
    ensures r.Some? <==> HasPrefix(prefix, src)
    ensures r.Some? ==> prefix + r.value == src
  {
    if HasPrefix(prefix, src) then
      assert src == src[..|prefix|] + src[|prefix|..];
      Some(src[|prefix|..])
    else None
  }

  lemma StripPrefixOfConcat(prefix: string, s: string)
    ensures StripPrefix(prefix, prefix + s) == Some(s)
  {
    assert (prefix + s)[..|prefix|] == prefix;
    assert (prefix + s)[|prefix|..] == s;
  }

  /** Splits `s` at the first occurrence of `c`. */
  function SplitFirst(s: string, c: char): (r: Option<(string, string)>)
    ensures r.Some? <==> c in s
    ensures r.Some? ==> c !in r.value.0 && r.value.0 + [c] + r.value.1 == s
  {
    if |s| == 0 then None
    else if s[0] == c then Some(([], s[1..]))
    else
      match SplitFirst(s[1..], c)
      case None => None
      case Some(p) => Some(([s[0]] + p.0, p.1))
  }

  lemma {:induction false} SplitFirstOfJoin(a: string, c: char, b: string)
    requires c !in a
    ensures SplitFirst(a + [c] + b, c) == Some((a, b))
  {
    if |a| == 0 {
      assert a + [c] + b == [c] + b;
    } else {
      assert (a + [c] + b)[1..] == a[1..] + [c] + b;
      SplitFirstOfJoin(a[1..], c, b);
      assert [a[0]] + a[1..] == a;
    }
  }
}
