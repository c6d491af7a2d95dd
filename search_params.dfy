/**
 * `URLSearchParams` as the OAuth routes use it: an ordered list of name-value
 * pairs changed in place by `set` and `append`, and serialized into a URL's query
 * with the application/x-www-form-urlencoded serializer (section 5.2 of the WHATWG
 * URL Standard). The matching parser (section 5.1) reads the query back.
 */
module SearchParams {
  import opened Wrappers
  import opened UrlEncoding

  datatype Param = Param(name: string, value: string)

  /** The values paired with `name`, in list order. */
  function Named(list: seq<Param>, name: string): (vs: seq<string>)
    ensures |vs| <= |list|
  {
    if list == [] then []
    else (if list[0].name == name then [list[0].value] else []) + Named(list[1..], name)
  }

  /** `params.get(name)`: the first value paired with `name`. */
  function Get(list: seq<Param>, name: string): (r: Option<string>)
    ensures r.Some? <==> Named(list, name) != []
    ensures r.Some? ==> r.value == Named(list, name)[0]
  {
    if list == [] then None
    else if list[0].name == name then Some(list[0].value)
    else Get(list[1..], name)
  }

  lemma {:induction false} NamedAppend(a: seq<Param>, b: seq<Param>, name: string)
    ensures Named(a + b, name) == Named(a, name) + Named(b, name)
  {
    if a != [] {
      var head := if a[0].name == name then [a[0].value] else [];
      assert (a + b)[0] == a[0] && (a + b)[1..] == a[1..] + b;
      NamedAppend(a[1..], b, name);
      assert Named(a + b, name) == head + (Named(a[1..], name) + Named(b, name));
      assert head + (Named(a[1..], name) + Named(b, name)) == (head + Named(a[1..], name)) + Named(b, name);
    } else {
      assert a + b == b;
    }
  }

  function Without(list: seq<Param>, name: string): seq<Param> {
    if list == [] then []
    else if list[0].name == name then Without(list[1..], name)
    else [list[0]] + Without(list[1..], name)
  }

  /** `set` when `name` is present: the first such pair takes `value`, later ones go. */
  function SetPresent(list: seq<Param>, name: string, value: string): seq<Param>
    decreases |list|
  {
    if list == [] then []
    else if list[0].name == name then [Param(name, value)] + Without(list[1..], name)
    else [list[0]] + SetPresent(list[1..], name, value)
  }

  /** `params.set(name, value)`. */
  function SetParam(list: seq<Param>, name: string, value: string): seq<Param> {
    if Named(list, name) != [] then SetPresent(list, name, value)
    else list + [Param(name, value)]
  }

  lemma {:induction false} WithoutNamed(list: seq<Param>, name: string, other: string)
    ensures Named(Without(list, name), other) == if other == name then [] else Named(list, other)
  {
    if list != [] {
      WithoutNamed(list[1..], name, other);
      if list[0].name != name {
        assert ([list[0]] + Without(list[1..], name))[1..] == Without(list[1..], name);
      }
    }
  }

  lemma {:induction false} SetPresentNamed(list: seq<Param>, name: string, value: string, other: string)
    requires Named(list, name) != []
    ensures Named(SetPresent(list, name, value), other) == if other == name then [value] else Named(list, other)
  {
    if list[0].name == name {
      WithoutNamed(list[1..], name, other);
      assert ([Param(name, value)] + Without(list[1..], name))[1..] == Without(list[1..], name);
    } else {
      SetPresentNamed(list[1..], name, value, other);
      assert ([list[0]] + SetPresent(list[1..], name, value))[1..] == SetPresent(list[1..], name, value);
    }
  }

  /**
   * `params.set(name, value)`: afterwards `name` occurs exactly once, with `value`,
   * and the values of every other name are what they were, in order.
   */
  lemma SetParamNamed(list: seq<Param>, name: string, value: string, other: string)
    ensures Named(SetParam(list, name, value), other) == if other == name then [value] else Named(list, other)
  {
    if Named(list, name) != [] {
      SetPresentNamed(list, name, value, other);
    } else {
      NamedAppend(list, [Param(name, value)], other);
    }
  }

  /** After `set`, `get` returns the value set. */
  lemma SetThenGet(list: seq<Param>, name: string, value: string)
    ensures Get(SetParam(list, name, value), name) == Some(value)
  {
    SetParamNamed(list, name, value, name);
  }

  /** `set` of a name not yet present appends the pair. */
  lemma SetAbsent(list: seq<Param>, name: string, value: string)
    requires forall k | 0 <= k < |list| :: list[k].name != name
    ensures SetParam(list, name, value) == list + [Param(name, value)]
  {
    NamedAbsent(list, name);
  }

  lemma {:induction false} NamedAbsent(list: seq<Param>, name: string)
    requires forall k | 0 <= k < |list| :: list[k].name != name
    ensures Named(list, name) == []
  {
    if list != [] {
      NamedAbsent(list[1..], name);
    }
  }

  /** In a list whose names are distinct, `get` finds each pair's own value. */
  lemma {:induction false} GetDistinct(list: seq<Param>, k: nat)
    requires k < |list|
    requires forall i, j | 0 <= i < j < |list| :: list[i].name != list[j].name
    ensures Get(list, list[k].name) == Some(list[k].value)
    ensures Named(list, list[k].name) == [list[k].value]
  {
    if k == 0 {
      NamedAbsent(list[1..], list[0].name);
    } else {
      GetDistinct(list[1..], k - 1);
    }
  }

  /** The object behind `url.searchParams`, updated in place. */
  class UrlSearchParams {
    var list: seq<Param>

    constructor ()
      ensures list == []
    {
      list := [];
    }

    /** `set(name, value)`. */
    method Set(name: string, value: string)
      modifies this
      ensures list == SetParam(old(list), name, value)
    {
      list := SetParam(list, name, value);
    }

    /** `append(name, value)`: always adds a pair at the end. */
    method Append(name: string, value: string)
      modifies this
      ensures list == old(list) + [Param(name, value)]
    {
      list := list + [Param(name, value)];
    }
  }

  // ---------------------------------------------------------------------------
  // Serializing and parsing a query
  // ---------------------------------------------------------------------------

  function EncodeParam(p: Param): string {
    FormEncode(p.name) + "=" + FormEncode(p.value)
  }

  /** `params.toString()`: the encoded pairs joined by `&`. */
  function Serialize(list: seq<Param>): string {
    if list == [] then ""
    else if |list| == 1 then EncodeParam(list[0])
    else EncodeParam(list[0]) + "&" + Serialize(list[1..])
  }

  /** `url.href` for a URL without query or fragment whose search parameters are `list`. */
  function Href(base: string, list: seq<Param>): string {
    if list == [] then base else base + "?" + Serialize(list)
  }

  /** The pieces of `s` between occurrences of `sep`: always at least one. */
  function SplitOn(s: string, sep: char): (r: seq<string>)
    ensures |r| >= 1
  {
    if s == [] then [""]
    else
      var rest := SplitOn(s[1..], sep);
      if s[0] == sep then [""] + rest else [[s[0]] + rest[0]] + rest[1..]
  }

  lemma {:induction false} SplitOnFree(a: string, sep: char)
    requires sep !in a
    ensures SplitOn(a, sep) == [a]
  {
    if a != [] {
      SplitOnFree(a[1..], sep);
      assert [a[0]] + a[1..] == a;
    }
  }

  lemma {:induction false} SplitOnJoined(a: string, sep: char, b: string)
    requires sep !in a
    ensures SplitOn(a + [sep] + b, sep) == [a] + SplitOn(b, sep)
  {
    if a == [] {
      assert ([] + [sep] + b)[1..] == b;
    } else {
      assert (a + [sep] + b)[1..] == a[1..] + [sep] + b;
      SplitOnJoined(a[1..], sep, b);
      assert [a[0]] + a[1..] == a;
    }
  }

  /** Splits at the first `sep`; the second part is `None` when there is none. */
  function SplitFirst(s: string, sep: char): (string, Option<string>) {
    if s == [] then ("", None)
    else if s[0] == sep then ("", Some(s[1..]))
    else
      var (head, tail) := SplitFirst(s[1..], sep);
      ([s[0]] + head, tail)
  }

  lemma {:induction false} SplitFirstJoined(a: string, sep: char, b: string)
    requires sep !in a
    ensures SplitFirst(a + [sep] + b, sep) == (a, Some(b))
  {
    if a == [] {
      assert ([] + [sep] + b)[1..] == b;
    } else {
      assert (a + [sep] + b)[1..] == a[1..] + [sep] + b;
      SplitFirstJoined(a[1..], sep, b);
      assert [a[0]] + a[1..] == a;
    }
  }

  /** One `name=value` piece of a query, decoded. */
  function ParsePiece(piece: string): Param {
    var (name, value) := SplitFirst(piece, '=');
    Param(Decode(name, true), Decode(value.GetOr(""), true))
  }

  function ParsePieces(pieces: seq<string>): seq<Param> {
    if pieces == [] then []
    else (if pieces[0] == "" then [] else [ParsePiece(pieces[0])]) + ParsePieces(pieces[1..])
  }

  /** The application/x-www-form-urlencoded parser: empty pieces are skipped. */
  function ParseQuery(query: string): seq<Param> {
    ParsePieces(SplitOn(query, '&'))
  }

  /** The text after the first `?` of a URL (its query, when it has no fragment). */
  function QueryOf(href: string): string {
    SplitFirst(href, '?').1.GetOr("")
  }

  lemma FormEncodeFree(s: string)
    ensures '&' !in FormEncode(s) && '=' !in FormEncode(s) && '?' !in FormEncode(s)
  {
    var e := FormEncode(s);
    assert forall k :: 0 <= k < |e| ==> e[k] != '&' && e[k] != '=' && e[k] != '?';
  }

  lemma ParseEncodedParam(p: Param)
    ensures EncodeParam(p) != "" && '&' !in EncodeParam(p)
    ensures ParsePiece(EncodeParam(p)) == p
  {
    FormEncodeFree(p.name);
    FormEncodeFree(p.value);
    SplitFirstJoined(FormEncode(p.name), '=', FormEncode(p.value));
    FormDecodeEncode(p.name);
    FormDecodeEncode(p.value);
  }

  /** Parsing a serialized list gives the list back: pair for pair, in order. */
  lemma {:induction false} ParseSerialize(list: seq<Param>)
    ensures ParseQuery(Serialize(list)) == list
  {
    if list == [] {
    } else if |list| == 1 {
      ParseEncodedParam(list[0]);
      SplitOnFree(EncodeParam(list[0]), '&');
      ParsePiecesCons(EncodeParam(list[0]), []);
    } else {
      var piece := EncodeParam(list[0]);
      ParseEncodedParam(list[0]);
      assert Serialize(list) == piece + ['&'] + Serialize(list[1..]);
      SplitOnJoined(piece, '&', Serialize(list[1..]));
      ParsePiecesCons(piece, SplitOn(Serialize(list[1..]), '&'));
      ParseSerialize(list[1..]);
      assert [list[0]] + list[1..] == list;
    }
  }

  lemma ParsePiecesCons(piece: string, rest: seq<string>)
    requires piece != ""
    ensures ParsePieces([piece] + rest) == [ParsePiece(piece)] + ParsePieces(rest)
  {
    assert ([piece] + rest)[1..] == rest;
  }

  /** The query of `Href(base, list)` parses back to `list` when `base` has no `?`. */
  lemma ParseHref(base: string, list: seq<Param>)
    requires '?' !in base && list != []
    ensures ParseQuery(QueryOf(Href(base, list))) == list
  {
    SplitFirstJoined(base, '?', Serialize(list));
    ParseSerialize(list);
  }
}
