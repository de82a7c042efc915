/**
 * The body of a `fetch` answer: `JSON.stringify` of the list of gift
 * records, either alone or wrapped as a JSONP call `callback(json)`. The
 * readers here (a JSON reader for exactly this shape, and the page's
 * JSONP unwrapping) are the partners the encoders are proved against.
 */
module GiftJson {
  import opened JsText
  import opened GiftModel

  function HexDigit(d: nat): (c: char)
    requires d < 16
  {
    if d < 10 then (48 + d) as char else (87 + d) as char
  }

  function HexValue(c: char): Option<nat>
  {
    if '0' <= c <= '9' then Some(c as int - 48)
    else if 'a' <= c <= 'f' then Some(c as int - 87)
    else if 'A' <= c <= 'F' then Some(c as int - 55)
    else None
  }

  /** One character inside a JSON string literal, as `JSON.stringify`
      writes it: quote and backslash escaped, the five control characters
      with short escapes by letter, the other control characters as
      `\u00xx` with lower-case hex digits, everything else as it is. */
  function EscapeJsonChar(c: char): (r: string)
    ensures r != []
    ensures forall i :: 0 <= i < |r| ==> r[i] != '"' || (i > 0 && r[i - 1] == '\\')
  {
    var n := c as int;
    if c == '"' then "\\\""
    else if c == '\\' then "\\\\"
    else if n == 0x08 then "\\b"
    else if n == 0x09 then "\\t"
    else if n == 0x0A then "\\n"
    else if n == 0x0C then "\\f"
    else if n == 0x0D then "\\r"
    else if n < 0x20 then "\\u00" + [HexDigit(n / 16), HexDigit(n % 16)]
    else [c]
  }

  function EscapeJson(s: string): (r: string)
    ensures |r| >= |s|
    decreases |s|
  {
    if s == [] then [] else EscapeJsonChar(s[0]) + EscapeJson(s[1..])
  }

  /** The character a short escape `\x` stands for. */
  function ShortEscape(x: char): Option<char>
  {
    if x == '"' then Some('"')
    else if x == '\\' then Some('\\')
    else if x == '/' then Some('/')
    else if x == 'b' then Some(0x08 as char)
    else if x == 't' then Some(0x09 as char)
    else if x == 'n' then Some(0x0A as char)
    else if x == 'f' then Some(0x0C as char)
    else if x == 'r' then Some(0x0D as char)
    else None
  }

  /** The character a `\uXXXX` escape stands for (surrogate halves are
      not read). */
  function UnicodeEscape(a: char, b: char, c: char, d: char): Option<char>
  {
    var ha :- HexValue(a);
    var hb :- HexValue(b);
    var hc :- HexValue(c);
    var hd :- HexValue(d);
    var n := ((ha * 16 + hb) * 16 + hc) * 16 + hd;
    if 0xD800 <= n < 0xE000 then None else Some(n as char)
  }

  /** Reads the rest of a JSON string literal whose opening quote has been
      read: the text it stands for, and what follows the closing quote. */
  function ReadString(s: string): (r: Option<(string, string)>)
    ensures r.Some? ==> |r.value.1| < |s|
    decreases |s|
  {
    if s == [] then None
    else if s[0] == '"' then Some(([], s[1..]))
    else if s[0] == '\\' then
      if |s| < 2 then None
      else if s[1] == 'u' then
        if |s| < 6 then None
        else
          var c :- UnicodeEscape(s[2], s[3], s[4], s[5]);
          var tail :- ReadString(s[6..]);
          Some(([c] + tail.0, tail.1))
      else
        var c :- ShortEscape(s[1]);
        var tail :- ReadString(s[2..]);
        Some(([c] + tail.0, tail.1))
    else if (s[0] as int) < 0x20 then None
    else
      var tail :- ReadString(s[1..]);
      Some(([s[0]] + tail.0, tail.1))
  }

  lemma ReadEscapedChar(c: char, t: string)
    ensures ReadString(EscapeJsonChar(c) + t)
         == match ReadString(t)
            case None => None
            case Some(tail) => Some(([c] + tail.0, tail.1))
  {
    var n := c as int;
    var e := EscapeJsonChar(c) + t;
    var k := |EscapeJsonChar(c)|;
    assert e[k..] == t;
    if n < 0x20 && n != 0x08 && n != 0x09 && n != 0x0A && n != 0x0C && n != 0x0D {
      assert e[..6] == "\\u00" + [HexDigit(n / 16), HexDigit(n % 16)];
      assert UnicodeEscape(e[2], e[3], e[4], e[5]) == Some(c);
    }
  }

  /** `JSON.parse` reads back exactly the text `JSON.stringify` wrote,
      whatever follows the closing quote. */
  lemma {:induction false} ReadStringRoundTrip(s: string, rest: string)
    ensures ReadString(EscapeJson(s) + "\"" + rest) == Some((s, rest))
    decreases |s|
  {
    if s == [] {
      assert EscapeJson(s) + "\"" + rest == "\"" + rest;
    } else {
      ReadStringRoundTrip(s[1..], rest);
      assert EscapeJson(s) + "\"" + rest == EscapeJsonChar(s[0]) + (EscapeJson(s[1..]) + "\"" + rest);
      ReadEscapedChar(s[0], EscapeJson(s[1..]) + "\"" + rest);
      assert [s[0]] + s[1..] == s;
    }
  }

  const KdoKey: string := "{\"kdo\":\""
  const OdKohoKey: string := ",\"odKoho\":\""
  const CoKey: string := ",\"co\":\""
  const OdkazKey: string := ",\"odkaz\":\""
  const StatusKey: string := ",\"status\":\""

  /** A key, and the string value after it with its closing quote. */
  function Field(key: string, value: string): string
  {
    key + EscapeJson(value) + "\""
  }

  /** `JSON.stringify` of one record: keys in the order the handler builds
      the object, no white space. */
  function GiftToJson(g: Gift): string
  {
    Field(KdoKey, g.kdo) + Field(OdKohoKey, g.odKoho) + Field(CoKey, g.co)
    + Field(OdkazKey, g.odkaz) + Field(StatusKey, g.status) + "}"
  }

  function JoinGifts(gs: seq<Gift>): string
    decreases |gs|
  {
    if gs == [] then ""
    else if |gs| == 1 then GiftToJson(gs[0])
    else GiftToJson(gs[0]) + "," + JoinGifts(gs[1..])
  }

  /** `JSON.stringify(quotes)`: reading the array back gives exactly the
      list of records, in order. */
  function GiftsToJson(gs: seq<Gift>): (json: string)
    ensures ParseGifts(json) == Some(gs)
  {
    if gs != [] then
      JoinGiftsNonEmpty(gs);
      Bracketed(JoinGifts(gs));
      ReadElementsRoundTrip(gs);
      "[" + JoinGifts(gs) + "]"
    else
      "[]"
  }

  /** A non-empty text in brackets is not `[]`, and after the opening
      bracket come the text and the closing bracket. */
  lemma Bracketed(j: string)
    requires |j| > 0
    ensures var json := "[" + j + "]";
      json != "[]" && json != [] && json[0] == '[' && json[1..] == j + "]"
  {
    assert ("[" + j + "]")[1..] == j + "]";
  }

  lemma JoinGiftsNonEmpty(gs: seq<Gift>)
    requires gs != []
    ensures |JoinGifts(gs)| > 0
  {
    assert |GiftToJson(gs[0])| > 0;
  }

  function ReadField(key: string, s: string): (r: Option<(string, string)>)
    ensures r.Some? ==> |r.value.1| < |s|
  {
    if key <= s then ReadString(s[|key|..]) else None
  }

  /** Reads one record written by GiftToJson, and what follows it. */
  function ReadGift(s: string): (r: Option<(Gift, string)>)
    ensures r.Some? ==> |r.value.1| < |s|
  {
    var kdo :- ReadField(KdoKey, s);
    var odKoho :- ReadField(OdKohoKey, kdo.1);
    var co :- ReadField(CoKey, odKoho.1);
    var odkaz :- ReadField(OdkazKey, co.1);
    var status :- ReadField(StatusKey, odkaz.1);
    if status.1 != [] && status.1[0] == '}' then
      Some((Gift(kdo.0, odKoho.0, co.0, odkaz.0, status.0), status.1[1..]))
    else None
  }

  function ReadElements(s: string): Option<seq<Gift>>
    decreases |s|
  {
    var first :- ReadGift(s);
    if first.1 == "]" then Some([first.0])
    else if first.1 != [] && first.1[0] == ',' then
      var more :- ReadElements(first.1[1..]);
      Some([first.0] + more)
    else None
  }

  /** Reads a JSON array of records written by GiftsToJson. */
  function ParseGifts(s: string): Option<seq<Gift>>
  {
    if s == "[]" then Some([])
    else if s != [] && s[0] == '[' then ReadElements(s[1..])
    else None
  }

  lemma ReadFieldRoundTrip(key: string, value: string, rest: string)
    ensures ReadField(key, Field(key, value) + rest) == Some((value, rest))
  {
    var s := Field(key, value) + rest;
    assert key <= s;
    assert s[|key|..] == EscapeJson(value) + "\"" + rest;
    ReadStringRoundTrip(value, rest);
  }

  lemma ReadGiftRoundTrip(g: Gift, rest: string)
    ensures ReadGift(GiftToJson(g) + rest) == Some((g, rest))
  {
    var r5 := "}" + rest;
    var r4 := Field(StatusKey, g.status) + r5;
    var r3 := Field(OdkazKey, g.odkaz) + r4;
    var r2 := Field(CoKey, g.co) + r3;
    var r1 := Field(OdKohoKey, g.odKoho) + r2;
    GiftToJsonSplits(g, rest);
    ReadFieldRoundTrip(KdoKey, g.kdo, r1);
    ReadFieldRoundTrip(OdKohoKey, g.odKoho, r2);
    ReadFieldRoundTrip(CoKey, g.co, r3);
    ReadFieldRoundTrip(OdkazKey, g.odkaz, r4);
    ReadFieldRoundTrip(StatusKey, g.status, r5);
    assert r5[0] == '}' && r5[1..] == rest;
  }

  lemma Regroup(a: string, b: string, c: string)
    ensures a + b + c == a + (b + c)
  {
  }

  /** GiftToJson(g) + rest, regrouped field by field from the right. */
  lemma GiftToJsonSplits(g: Gift, rest: string)
    ensures GiftToJson(g) + rest
         == Field(KdoKey, g.kdo) + (Field(OdKohoKey, g.odKoho) + (Field(CoKey, g.co)
            + (Field(OdkazKey, g.odkaz) + (Field(StatusKey, g.status) + ("}" + rest)))))
  {
    var f1, f2, f3, f4, f5 := Field(KdoKey, g.kdo), Field(OdKohoKey, g.odKoho), Field(CoKey, g.co), Field(OdkazKey, g.odkaz), Field(StatusKey, g.status);
    Regroup(f1 + f2 + f3 + f4 + f5, "}", rest);
    Regroup(f1 + f2 + f3 + f4, f5, "}" + rest);
    Regroup(f1 + f2 + f3, f4, f5 + ("}" + rest));
    Regroup(f1 + f2, f3, f4 + (f5 + ("}" + rest)));
    Regroup(f1, f2, f3 + (f4 + (f5 + ("}" + rest))));
  }

  /** The last record of the array, and the one before a comma. */
  lemma ReadElementsLast(g: Gift)
    ensures ReadElements(GiftToJson(g) + "]") == Some([g])
  {
    ReadGiftRoundTrip(g, "]");
  }

  lemma ReadElementsNext(g: Gift, more: string)
    ensures ReadElements(GiftToJson(g) + ("," + more))
         == match ReadElements(more)
            case None => None
            case Some(gs) => Some([g] + gs)
  {
    var tail := "," + more;
    ReadGiftRoundTrip(g, tail);
    assert tail != "]" by { assert tail[0] != "]"[0]; }
    assert tail[1..] == more;
  }

  /** JoinGifts(gs) + "]", split after the first record. */
  lemma JoinGiftsSplits(gs: seq<Gift>)
    requires |gs| > 1
    ensures JoinGifts(gs) + "]" == GiftToJson(gs[0]) + ("," + (JoinGifts(gs[1..]) + "]"))
  {
    var g0, rest := GiftToJson(gs[0]), JoinGifts(gs[1..]);
    Regroup(g0 + ",", rest, "]");
    Regroup(g0, ",", rest + "]");
  }

  lemma {:induction false} ReadElementsRoundTrip(gs: seq<Gift>)
    requires gs != []
    ensures ReadElements(JoinGifts(gs) + "]") == Some(gs)
    decreases |gs|
  {
    if |gs| == 1 {
      ReadElementsLast(gs[0]);
      assert [gs[0]] == gs;
    } else {
      JoinGiftsSplits(gs);
      ReadElementsRoundTrip(gs[1..]);
      ReadElementsNext(gs[0], JoinGifts(gs[1..]) + "]");
      assert [gs[0]] + gs[1..] == gs;
    }
  }

  /** The response body of `fetch`: with a non-empty callback parameter a
      call the page unwraps back to exactly the JSON, and the JSON itself
      otherwise. */
  function JsonpBody(callback: string, json: string): (body: string)
    ensures callback != "" ==> UnwrapJsonp(body, callback) == Some(json)
    ensures callback == "" ==> body == json
  {
    if callback != "" then
      var body := callback + "(" + json + ")";
      assert callback + "(" <= body;
      assert body[|callback| + 1 .. |body| - 1] == json;
      body
    else
      json
  }

  /** What the page's script tag hands to its callback: the argument of
      `callback(...)`, or nothing when the body is not such a call. */
  function UnwrapJsonp(body: string, callback: string): Option<string>
  {
    if |body| >= |callback| + 2 && callback + "(" <= body && body[|body| - 1] == ')' then
      Some(body[|callback| + 1 .. |body| - 1])
    else None
  }
}
