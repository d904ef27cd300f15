/** The JSON text of the `tags` column. `Json` models the PHP values this code
    hands to `json_encode`: `null`, strings, and lists of such values.
    `Encode` stands in for `json_encode` (it escapes `"`, `\` and `/` as PHP
    does by default) and `Decode` for `json_decode(..., true)` on the texts
    that `Encode` produces. */
module Json {
  import opened Wrappers

  datatype Json = JNull | JString(s: string) | JArray(items: seq<Json>)

  function EscapeChar(c: char): string {
    if c == '"' then "\\\""
    else if c == '\\' then "\\\\"
    else if c == '/' then "\\/"
    else [c]
  }

  function Escape(s: string): string
    decreases |s|
  {
    if |s| == 0 then "" else EscapeChar(s[0]) + Escape(s[1..])
  }

  function Encode(v: Json): string {
    match v
    case JNull => "null"
    case JString(s) => "\"" + Escape(s) + "\""
    case JArray(items) => "[" + EncodeItems(items) + "]"
  }

  /** The comma-separated members of a list, without the brackets. */
  function EncodeItems(items: seq<Json>): string {
    if |items| == 0 then ""
    else if |items| == 1 then Encode(items[0])
    else Encode(items[0]) + "," + EncodeItems(items[1..])
  }

  /** Reads the body of a string literal up to its closing quote. */
  function ParseString(s: string): (r: Option<(string, string)>)
    ensures r.Some? ==> |r.value.1| < |s|
    decreases |s|
  {
    if |s| == 0 then None
    else if s[0] == '"' then Some(("", s[1..]))
    else if s[0] == '\\' then
      if |s| >= 2 && (s[1] == '"' || s[1] == '\\' || s[1] == '/') then
        match ParseString(s[2..])
        case None => None
        case Some((body, rest)) => Some(([s[1]] + body, rest))
      else None
    else
      match ParseString(s[1..])
      case None => None
      case Some((body, rest)) => Some(([s[0]] + body, rest))
  }

  /** Reads one value from the front of `s`; returns it with the unread rest. */
  function ParseValue(s: string): (r: Option<(Json, string)>)
    ensures r.Some? ==> |r.value.1| < |s|
    decreases |s|, 0
  {
    if |s| >= 4 && s[..4] == "null" then Some((JNull, s[4..]))
    else if |s| >= 1 && s[0] == '"' then
      match ParseString(s[1..])
      case None => None
      case Some((body, rest)) => Some((JString(body), rest))
    else if |s| >= 2 && s[0] == '[' && s[1] == ']' then Some((JArray([]), s[2..]))
    else if |s| >= 1 && s[0] == '[' then
      match ParseItems(s[1..])
      case None => None
      case Some((items, rest)) => Some((JArray(items), rest))
    else None
  }

  /** Reads the members of a non-empty list and its closing bracket. */
  function ParseItems(s: string): (r: Option<(seq<Json>, string)>)
    ensures r.Some? ==> |r.value.1| < |s| && |r.value.0| >= 1
    decreases |s|, 1
  {
    match ParseValue(s)
    case None => None
    case Some((first, rest)) =>
      if |rest| >= 1 && rest[0] == ']' then Some(([first], rest[1..]))
      else if |rest| >= 1 && rest[0] == ',' then
        match ParseItems(rest[1..])
        case None => None
        case Some((others, rest')) => Some(([first] + others, rest'))
      else None
  }

  /** The value a whole text denotes, if it is exactly one value. */
  function Decode(s: string): Option<Json> {
    match ParseValue(s)
    case Some((v, rest)) => if rest == "" then Some(v) else None
    case None => None
  }

  /** Every encoding is at least two characters long and never opens with `]` or `,`. */
  lemma EncodeShape(v: Json)
    ensures |Encode(v)| >= 2
    ensures Encode(v)[0] in {'n', '"', '['}
  {
  }

  lemma {:induction false} ParseEscaped(s: string, rest: string)
    ensures ParseString(Escape(s) + "\"" + rest) == Some((s, rest))
    decreases |s|
  {
    if |s| == 0 {
      assert Escape(s) + "\"" + rest == "\"" + rest;
    } else {
      ParseEscaped(s[1..], rest);
      var tail := Escape(s[1..]) + "\"" + rest;
      var text := Escape(s) + "\"" + rest;
      assert text == EscapeChar(s[0]) + tail;
      if s[0] == '"' || s[0] == '\\' || s[0] == '/' {
        assert text[2..] == tail;
      } else {
        assert text[1..] == tail;
      }
      assert [s[0]] + s[1..] == s;
    }
  }

  lemma {:induction false} ParseEncoded(v: Json, rest: string)
    ensures ParseValue(Encode(v) + rest) == Some((v, rest))
    decreases v, 1
  {
    var text := Encode(v) + rest;
    match v
    case JNull =>
      assert text[..4] == "null";
      assert text[4..] == rest;
    case JString(s) =>
      assert text[0] == '"';
      assert text[1..] == Escape(s) + "\"" + rest;
      ParseEscaped(s, rest);
    case JArray(items) =>
      if |items| == 0 {
        assert text[0] == '[' && text[1] == ']';
        assert text[2..] == rest;
      } else {
        EncodeShape(items[0]);
        assert EncodeItems(items)[0] == Encode(items[0])[0];
        assert text[1..] == EncodeItems(items) + "]" + rest;
        ParseEncodedItems(items, rest);
      }
  }

  lemma {:induction false} ParseEncodedItems(items: seq<Json>, rest: string)
    requires |items| >= 1
    ensures ParseItems(EncodeItems(items) + "]" + rest) == Some((items, rest))
    decreases items, 0
  {
    var text := EncodeItems(items) + "]" + rest;
    if |items| == 1 {
      assert text == Encode(items[0]) + ("]" + rest);
      ParseEncoded(items[0], "]" + rest);
      assert ParseValue(text) == Some((items[0], "]" + rest));
      assert ("]" + rest)[1..] == rest;
      assert [items[0]] == items;
    } else {
      var others := EncodeItems(items[1..]) + "]" + rest;
      var after := "," + others;
      assert text == Encode(items[0]) + after;
      ParseEncoded(items[0], after);
      assert ParseValue(text) == Some((items[0], after));
      assert after[1..] == others;
      ParseEncodedItems(items[1..], rest);
      assert ParseItems(others) == Some((items[1..], rest));
      assert [items[0]] + items[1..] == items;
    }
  }

  /** Reading back what was written gives the same value: the `array` cast
      round trip. */
  lemma RoundTrip(v: Json)
    ensures Decode(Encode(v)) == Some(v)
  {
    ParseEncoded(v, "");
    assert Encode(v) + "" == Encode(v);
  }

  /** Encoding is injective: distinct values never share a text. */
  lemma EncodeInjective(v: Json, w: Json)
    ensures Encode(v) == Encode(w) ==> v == w
  {
    RoundTrip(v);
    RoundTrip(w);
  }
}
