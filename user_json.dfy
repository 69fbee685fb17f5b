/** The text the client keeps under the storage key `'user'`: `JSON.stringify` of the user's
    `{ id, username }` record, and the reading of that text back (`JSON.parse`). */
module UserJson {
  import opened Wrappers
  import opened Text
  import opened Models

  predicate IsHex(c: char)
  {
    IsDigit(c) || ('a' <= c <= 'f') || ('A' <= c <= 'F')
  }

  /** A lower-case hexadecimal digit, as `JSON.stringify` writes them. */
  function HexDigit(d: nat): (c: char)
    requires d < 16
    ensures IsHex(c)
  {
    if d < 10 then DigitChar(d) else ('a' as int + d - 10) as char
  }

  function HexValue(c: char): (d: nat)
    requires IsHex(c)
    ensures d < 16
  {
    if IsDigit(c) then DigitValue(c)
    else if 'a' <= c <= 'f' then c as int - 'a' as int + 10
    else c as int - 'A' as int + 10
  }

  lemma HexRoundTrip(d: nat)
    requires d < 16
    ensures HexValue(HexDigit(d)) == d
  {
  }

  /** How `JSON.stringify` writes one character inside a string literal: a backslash before
      `"` and `\`, the short escapes for backspace, tab, line feed, form feed and carriage
      return, `\u00xx` for the other control characters, and everything else as it is. */
  function EscapeChar(c: char): string
  {
    if c == '"' then ['\\', '"']
    else if c == '\\' then ['\\', '\\']
    else if c == '\U{0008}' then ['\\', 'b']
    else if c == '\t' then ['\\', 't']
    else if c == '\n' then ['\\', 'n']
    else if c == '\U{000C}' then ['\\', 'f']
    else if c == '\r' then ['\\', 'r']
    else if c < ' ' then ['\\', 'u', '0', '0', HexDigit(c as int / 16), HexDigit(c as int % 16)]
    else [c]
  }

  function Escape(s: string): string
  {
    if s == [] then [] else EscapeChar(s[0]) + Escape(s[1..])
  }

  /** The character a one-letter escape stands for. */
  function ShortEscape(e: char): Option<char>
  {
    if e == '"' then Some('"')
    else if e == '\\' then Some('\\')
    else if e == '/' then Some('/')
    else if e == 'b' then Some('\U{0008}')
    else if e == 't' then Some('\t')
    else if e == 'n' then Some('\n')
    else if e == 'f' then Some('\U{000C}')
    else if e == 'r' then Some('\r')
    else None
  }

  function Prepend(c: char, r: Option<(string, string)>): Option<(string, string)>
  {
    match r
    case None => None
    case Some((body, rest)) => Some(([c] + body, rest))
  }

  /** Reads the inside of a JSON string literal up to its closing quote: the decoded text and
      what follows the quote. Raw control characters and unknown escapes are errors; a
      `\u` escape of a surrogate half is not read (see the README). */
  function ReadString(s: string): Option<(string, string)>
    decreases |s|
  {
    if s == [] then None
    else if s[0] == '"' then Some(([], s[1..]))
    else if s[0] == '\\' then
      if |s| < 2 then None
      else if s[1] == 'u' then
        if |s| < 6 || !IsHex(s[2]) || !IsHex(s[3]) || !IsHex(s[4]) || !IsHex(s[5]) then None
        else
          var v := ((HexValue(s[2]) * 16 + HexValue(s[3])) * 16 + HexValue(s[4])) * 16 + HexValue(s[5]);
          if 0xD800 <= v < 0xE000 then None
          else Prepend(v as char, ReadString(s[6..]))
      else
        match ShortEscape(s[1])
        case None => None
        case Some(c) => Prepend(c, ReadString(s[2..]))
    else if s[0] < ' ' then None
    else Prepend(s[0], ReadString(s[1..]))
  }

  /** Reading an escaped character gives the character back and continues after it. */
  lemma ReadEscapedChar(c: char, t: string)
    ensures ReadString(EscapeChar(c) + t) == Prepend(c, ReadString(t))
  {
    if c == '"' || c == '\\' || c == '\U{0008}' || c == '\t' || c == '\n' || c == '\U{000C}' || c == '\r' {
      ReadShortEscape(c, t);
    } else if c < ' ' {
      ReadUnicodeEscape(c, t);
    } else {
      var s := EscapeChar(c) + t;
      assert s[0] == c && s[1..] == t;
    }
  }

  lemma ReadShortEscape(c: char, t: string)
    requires c == '"' || c == '\\' || c == '\U{0008}' || c == '\t' || c == '\n' || c == '\U{000C}' || c == '\r'
    ensures ReadString(EscapeChar(c) + t) == Prepend(c, ReadString(t))
  {
    var s := EscapeChar(c) + t;
    assert s[0] == '\\' && ShortEscape(s[1]) == Some(c);
    assert s[2..] == t;
  }

  lemma ReadUnicodeEscape(c: char, t: string)
    requires c < ' ' && c != '\U{0008}' && c != '\t' && c != '\n' && c != '\U{000C}' && c != '\r'
    ensures ReadString(EscapeChar(c) + t) == Prepend(c, ReadString(t))
  {
    var s := EscapeChar(c) + t;
    var hi, lo := c as int / 16, c as int % 16;
    assert s[0] == '\\' && s[1] == 'u';
    assert s[2] == '0' && s[3] == '0' && s[4] == HexDigit(hi) && s[5] == HexDigit(lo);
    HexRoundTrip(hi);
    HexRoundTrip(lo);
    assert s[6..] == t;
  }

  /** Reading back an escaped string and its closing quote gives the string and the rest. */
  lemma {:induction false} ReadEscaped(x: string, rest: string)
    ensures ReadString(Escape(x) + "\"" + rest) == Some((x, rest))
  {
    if x == [] {
      assert Escape(x) + "\"" + rest == "\"" + rest;
      assert ("\"" + rest)[1..] == rest;
    } else {
      assert Escape(x) + "\"" + rest == EscapeChar(x[0]) + (Escape(x[1..]) + "\"" + rest);
      ReadEscapedChar(x[0], Escape(x[1..]) + "\"" + rest);
      ReadEscaped(x[1..], rest);
      assert [x[0]] + x[1..] == x;
    }
  }

  /** A JSON integer: an optional minus sign and digits, and what follows them. */
  function ReadInt(s: string): Option<(int, string)>
  {
    if s != [] && s[0] == '-' then WithSign(true, ParseNatPrefix(s[1..]))
    else WithSign(false, ParseNatPrefix(s))
  }

  function WithSign(negative: bool, r: Option<(nat, string)>): Option<(int, string)>
  {
    if r.None? then None
    else Some((if negative then 0 - r.value.0 else r.value.0, r.value.1))
  }

  lemma ReadIntRoundTrip(n: int, rest: string)
    requires StopsDigits(rest)
    ensures ReadInt(IntToDecimal(n) + rest) == Some((n, rest))
  {
    if n < 0 {
      NegativeIntRoundTrip(n, rest);
    } else {
      NonNegativeIntRoundTrip(n, rest);
    }
  }

  lemma NegativeIntRoundTrip(n: int, rest: string)
    requires n < 0 && StopsDigits(rest)
    ensures ReadInt(IntToDecimal(n) + rest) == Some((n, rest))
  {
    NegativeText(n, rest);
    NatPrefixRoundTrip(-n, rest);
  }

  lemma NonNegativeIntRoundTrip(n: int, rest: string)
    requires n >= 0 && StopsDigits(rest)
    ensures ReadInt(IntToDecimal(n) + rest) == Some((n, rest))
  {
    var d := NatToDecimal(n);
    assert IsDigit((d + rest)[0]);
    NatPrefixRoundTrip(n, rest);
  }

  const IdKey: string := "{\"id\":"
  const NameKey: string := ",\"username\":\""

  /** `JSON.stringify({ id, username })`: `{"id":<id>,"username":"<escaped name>"}`.
      The greeting `message` is not saved. */
  function Encode(u: User): (s: string)
    ensures StartsWith(s, IdKey)
  {
    IdKey + IntToDecimal(u.id) + NameKey + Escape(u.username) + "\"}"
  }

  /** `JSON.parse` of the saved text, for text of the shape `Encode` writes; any other text is
      a parse failure here. */
  function Decode(s: string): Option<User>
  {
    if !StartsWith(s, IdKey) then None
    else
      var id := ReadInt(s[|IdKey|..]);
      if id.None? then None else DecodeName(id.value.0, id.value.1)
  }

  /** The part of `Decode` after the id: the `username` member and the closing brace. */
  function DecodeName(id: int, r1: string): Option<User>
  {
    if !StartsWith(r1, NameKey) then None
    else
      var name := ReadString(r1[|NameKey|..]);
      if name.Some? && name.value.1 == "}" then Some(User(id, name.value.0, None)) else None
  }

  lemma DecodeNameEncoded(id: int, name: string)
    ensures DecodeName(id, NameKey + Escape(name) + "\"}") == Some(User(id, name, None))
  {
    var tail := NameKey + Escape(name) + "\"}";
    assert tail[..|NameKey|] == NameKey;
    assert tail[|NameKey|..] == Escape(name) + "\"" + "}";
    ReadEscaped(name, "}");
  }

  /** What is saved reads back as the same user, without the greeting. */
  lemma DecodeEncode(u: User)
    ensures Decode(Encode(u)) == Some(u.(message := None))
  {
    var s := Encode(u);
    var tail := NameKey + Escape(u.username) + "\"}";
    assert s == IdKey + (IntToDecimal(u.id) + tail);
    assert s[|IdKey|..] == IntToDecimal(u.id) + tail;
    assert tail[0] == ',';
    ReadIntRoundTrip(u.id, tail);
    DecodeNameEncoded(u.id, u.username);
  }

  /** Text that is not a saved user record, such as `'invalid-json'`, does not read as a user. */
  lemma DecodeRejectsOtherText(s: string)
    requires s == [] || s[0] != '{'
    ensures Decode(s) == None
  {
  }
}
