/** Canonical text decodes uniquely: a recursive-descent reader undoes the printer of
    continuity-core/src/canonicalization.rs, also when more text follows. */
module CanonicalDecoding {
  import opened Prelude
  import opened JsonNumber
  import opened Canonicalization

  /** What may follow a value inside a canonical text. */
  predicate Delimited(rest: string) { rest == "" || rest[0] == ',' || rest[0] == ']' || rest[0] == '}' }

  predicate Starts(t: string, c: char) { t != "" && t[0] == c }

  // ----- The reader -----

  function ParseHexDigit(c: char): Option<nat> {
    if '0' <= c <= '9' then Some(c as nat - '0' as nat)
    else if 'a' <= c <= 'f' then Some(c as nat - 'a' as nat + 10)
    else None
  }

  /** The four hexadecimal digits of a \u escape. */
  function ParseHex4(t: string): Option<nat>
    requires |t| >= 4
  {
    match (ParseHexDigit(t[0]), ParseHexDigit(t[1]), ParseHexDigit(t[2]), ParseHexDigit(t[3]))
    case (Some(a), Some(b), Some(c), Some(d)) => Some(((a * 16 + b) * 16 + c) * 16 + d)
    case _ => None
  }

  /** One possibly escaped character, and the text after it. */
  function ParseChar(t: string): (r: Option<(char, string)>)
    ensures r.Some? ==> |r.value.1| < |t|
  {
    if t == "" || t[0] == '"' || t[0] <= '\U{1f}' then None
    else if t[0] != '\\' then Some((t[0], t[1..]))
    else if |t| < 2 then None
    else match t[1]
      case '"' => Some(('"', t[2..]))
      case '\\' => Some(('\\', t[2..]))
      case '/' => Some(('/', t[2..]))
      case 'b' => Some(('\U{08}', t[2..]))
      case 'f' => Some(('\U{0c}', t[2..]))
      case 'n' => Some(('\n', t[2..]))
      case 'r' => Some(('\r', t[2..]))
      case 't' => Some(('\t', t[2..]))
      case 'u' =>
        if |t| < 6 then None
        else (match ParseHex4(t[2..])
              case Some(n) => if n < 0xD800 then Some((n as char, t[6..])) else None
              case None => None)
      case _ => None
  }

  /** The rest of a string after its opening quote. */
  function ParseString(t: string): (r: Option<(string, string)>)
    ensures r.Some? ==> |r.value.1| < |t|
    decreases |t|
  {
    if t != "" && t[0] == '"' then Some(("", t[1..]))
    else match ParseChar(t)
      case None => None
      case Some((c, more)) =>
        match ParseString(more)
        case None => None
        case Some((s, rest)) => Some(([c] + s, rest))
  }

  function NumberEnd(t: string, i: nat): (end: nat)
    requires i <= |t|
    ensures i <= end <= |t|
    decreases |t| - i
  {
    if i < |t| && IsNumberChar(t[i]) then NumberEnd(t, i + 1) else i
  }

  ghost function Parse(t: string): (r: Option<(Json, string)>)
    ensures r.Some? ==> |r.value.1| < |t|
    decreases |t|, 1
  {
    if t == "" then None
    else match t[0]
      case 'n' => ParseLiteral(t, "null", Null)
      case 't' => ParseLiteral(t, "true", Bool(true))
      case 'f' => ParseLiteral(t, "false", Bool(false))
      case '"' =>
        (match ParseString(t[1..])
         case Some((s, rest)) => Some((String(s), rest))
         case None => None)
      case '[' =>
        (match ParseItems(t[1..], true)
         case Some((items, rest)) => Some((Array(items), rest))
         case None => None)
      case '{' =>
        (match ParseFields(t[1..], true)
         case Some((fields, rest)) => Some((Object(fields), rest))
         case None => None)
      case _ =>
        var end := NumberEnd(t, 0);
        if IsNumber(t[..end]) then
          NumberChars(t[..end]);
          Some((Number(t[..end]), t[end..]))
        else None
  }

  function ParseLiteral(t: string, literal: string, v: Json): (r: Option<(Json, string)>)
    requires literal != ""
    ensures r.Some? ==> |r.value.1| < |t|
  {
    if literal <= t then Some((v, t[|literal|..])) else None
  }

  /** Skips the comma that every item but the first needs. */
  function SkipSeparator(t: string, first: bool): (r: Option<string>)
    ensures r.Some? ==> |r.value| <= |t|
  {
    if first then Some(t) else if Starts(t, ',') then Some(t[1..]) else None
  }

  ghost function ParseItems(t: string, first: bool): (r: Option<(seq<Json>, string)>)
    ensures r.Some? ==> |r.value.1| < |t|
    decreases |t|, 2
  {
    if Starts(t, ']') then Some(([], t[1..]))
    else match SkipSeparator(t, first)
      case None => None
      case Some(start) =>
        match Parse(start)
        case None => None
        case Some((item, more)) =>
          match ParseItems(more, false)
          case None => None
          case Some((items, rest)) => Some(([item] + items, rest))
  }

  ghost function ParseFields(t: string, first: bool): (r: Option<(seq<Field>, string)>)
    ensures r.Some? ==> |r.value.1| < |t|
    decreases |t|, 2
  {
    if Starts(t, '}') then Some(([], t[1..]))
    else match SkipSeparator(t, first)
      case None => None
      case Some(start) =>
        match ParseField(start)
        case None => None
        case Some((field, more)) =>
          match ParseFields(more, false)
          case None => None
          case Some((fields, rest)) => Some(([field] + fields, rest))
  }

  ghost function ParseField(t: string): (r: Option<(Field, string)>)
    ensures r.Some? ==> |r.value.1| < |t|
    decreases |t|, 0
  {
    if !Starts(t, '"') then None
    else match ParseString(t[1..])
      case None => None
      case Some((key, more)) =>
        if !Starts(more, ':') then None
        else match Parse(more[1..])
          case None => None
          case Some((value, rest)) => Some((Field(key, value), rest))
  }

  // ----- Strings -----

  lemma DigitRoundTrip(n: nat)
    requires n < 16
    ensures ParseHexDigit(HexDigit(n)) == Some(n)
  {}

  lemma HexOfControl(n: nat)
    requires n < 32
    ensures Hex(n, 4) == ['0', '0', HexDigit(n / 16), HexDigit(n % 16)]
  {
    assert Hex(0, 2) == "00";
    assert n / 16 < 16 && n / 16 / 16 == 0 && n / 16 % 16 == n / 16;
    assert Hex(n / 16, 3) == Hex(0, 2) + [HexDigit(n / 16)];
  }

  lemma ControlEscape(c: char)
    requires c <= '\U{1f}'
    ensures |Hex(c as nat, 4)| == 4 && ParseHex4(Hex(c as nat, 4)) == Some(c as nat)
  {
    var n := c as nat;
    HexOfControl(n);
    DigitRoundTrip(0);
    DigitRoundTrip(n / 16);
    DigitRoundTrip(n % 16);
    hide Hex, HexDigit, ParseHexDigit;
    assert HexDigit(0) == '0' by { ZeroDigit(); }
  }

  lemma ZeroDigit()
    ensures HexDigit(0) == '0'
  {}

  lemma LongEscape(c: char, rest: string)
    requires c <= '\U{1f}'
    ensures ParseChar("\\u" + Hex(c as nat, 4) + rest) == Some((c, rest))
  {
    ControlEscape(c);
    var digits := Hex(c as nat, 4);
    hide Hex, HexDigit, ParseHexDigit;
    var t := "\\u" + digits + rest;
    assert t[2..][..4] == digits && t[6..] == rest;
    assert ParseHex4(t[2..]) == ParseHex4(digits);
  }

  lemma CharRoundTrip(c: char, rest: string)
    ensures ParseChar(EscapeChar(c) + rest) == Some((c, rest))
    ensures (EscapeChar(c) + rest)[0] != '"'
  {
    var e := EscapeChar(c);
    assert (e + rest)[|e|..] == rest;
    if c <= '\U{1f}' {
      LongEscape(c, rest);
    }
    hide Hex, ParseHex4;
  }

  lemma {:induction false} StringRoundTrip(s: string, rest: string)
    ensures ParseString(Escape(s) + "\"" + rest) == Some((s, rest))
  {
    if s == "" {
      assert Escape(s) + "\"" + rest == ['"'] + rest;
    } else {
      hide ParseChar, EscapeChar;
      var more := Escape(s[1..]) + "\"" + rest;
      assert Escape(s) + "\"" + rest == EscapeChar(s[0]) + more;
      CharRoundTrip(s[0], more);
      StringRoundTrip(s[1..], rest);
      assert [s[0]] + s[1..] == s;
    }
  }

  // ----- Values -----

  lemma {:induction false} NumberEndIs(t: string, i: nat, end: nat)
    requires i <= end <= |t|
    requires forall k :: i <= k < end ==> IsNumberChar(t[k])
    requires end < |t| ==> !IsNumberChar(t[end])
    ensures NumberEnd(t, i) == end
    decreases end - i
  {
    if i < end {
      NumberEndIs(t, i + 1, end);
    }
  }

  lemma NumberRoundTrip(text: string, rest: string)
    requires IsNumber(text) && Delimited(rest)
    ensures Parse(text + rest) == Some((Number(text), rest))
  {
    var t := text + rest;
    NumberChars(text);
    NumberEndIs(t, 0, |text|);
    assert t[..|text|] == text && t[|text|..] == rest;
    assert t[0] == text[0];
  }

  lemma QuotedRoundTrip(s: string, rest: string)
    ensures Quote(s) + rest == "\"" + (Escape(s) + "\"" + rest)
    ensures ParseString((Quote(s) + rest)[1..]) == Some((s, rest))
  {
    StringRoundTrip(s, rest);
    assert Quote(s) + rest == "\"" + (Escape(s) + "\"" + rest);
  }

  lemma LiteralRoundTrip(v: Json, rest: string)
    requires v.Null? || v.Bool?
    ensures Parse(Text(v) + rest) == Some((v, rest))
  {
    var t := Text(v) + rest;
    assert t[0] == Text(v)[0];
    assert t[|Text(v)|..] == rest && Text(v) <= t;
  }

  lemma StringValueRoundTrip(s: string, rest: string)
    ensures Parse(Text(String(s)) + rest) == Some((String(s), rest))
  {
    hide ParseString;
    QuotedRoundTrip(s, rest);
  }

  /** Reading the printed form of a value gives the value and leaves the rest of the text. */
  lemma {:induction false} RoundTrip(v: Json, rest: string)
    requires NumbersValid(v) && Delimited(rest)
    ensures Parse(Text(v) + rest) == Some((v, rest))
    decreases v, 1
  {
    hide Parse, IsNumber, Quote, ItemsFrom, FieldsFrom;
    match v
    case Null => LiteralRoundTrip(v, rest);
    case Bool(b) => LiteralRoundTrip(v, rest);
    case Number(text) => NumberRoundTrip(text, rest);
    case String(s) => StringValueRoundTrip(s, rest);
    case Array(items) =>
      ItemsRoundTrip(items, 0, rest);
      ArrayRoundTrip(items, rest);
    case Object(fields) =>
      FieldsRoundTrip(fields, 0, rest);
      ObjectRoundTrip(fields, rest);
  }

  lemma ArrayRoundTrip(items: seq<Json>, rest: string)
    requires ParseItems(ItemsFrom(items, 0) + rest, true) == Some((items[0..], rest))
    ensures Parse(Text(Array(items)) + rest) == Some((Array(items), rest))
  {
    hide ItemsFrom, ParseItems;
    var t := Text(Array(items)) + rest;
    assert t == "[" + (ItemsFrom(items, 0) + rest);
    assert t[1..] == ItemsFrom(items, 0) + rest && items[0..] == items;
  }

  lemma ObjectRoundTrip(fields: seq<Field>, rest: string)
    requires ParseFields(FieldsFrom(fields, 0) + rest, true) == Some((fields[0..], rest))
    ensures Parse(Text(Object(fields)) + rest) == Some((Object(fields), rest))
  {
    hide FieldsFrom, ParseFields;
    var t := Text(Object(fields)) + rest;
    assert t == "{" + (FieldsFrom(fields, 0) + rest);
    assert t[1..] == FieldsFrom(fields, 0) + rest && fields[0..] == fields;
  }

  lemma {:induction false} ItemsRoundTrip(items: seq<Json>, i: nat, rest: string)
    requires i <= |items| && forall k :: 0 <= k < |items| ==> NumbersValid(items[k])
    ensures ParseItems(ItemsFrom(items, i) + rest, i == 0) == Some((items[i..], rest))
    ensures Delimited(ItemsFrom(items, i)) || i == 0
    decreases items, 0, |items| - i
  {
    hide Parse, NumbersValid, Text;
    var t := ItemsFrom(items, i) + rest;
    if i == |items| {
      assert t == "]" + rest;
      assert t[1..] == rest && items[i..] == [];
    } else {
      var more := ItemsFrom(items, i + 1) + rest;
      var start := Text(items[i]) + more;
      assert t == Separator(i) + start;
      ItemsRoundTrip(items, i + 1, rest);
      assert more[0] == ItemsFrom(items, i + 1)[0];
      RoundTrip(items[i], more);
      TextStart(items[i]);
      assert t == if i == 0 then start else "," + start;
      assert i > 0 ==> t[1..] == start;
      assert start[0] == Text(items[i])[0];
      assert items[i..] == [items[i]] + items[i + 1..];
    }
  }

  /** A value never starts like the end of an array or an object. */
  lemma TextStart(v: Json)
    requires NumbersValid(v)
    ensures Text(v) != "" && Text(v)[0] != ']' && Text(v)[0] != '}'
  {
    if v.Number? {
      NumberChars(v.text);
    }
  }

  lemma {:induction false} FieldsRoundTrip(fields: seq<Field>, i: nat, rest: string)
    requires i <= |fields| && forall k :: 0 <= k < |fields| ==> NumbersValid(fields[k].value)
    ensures ParseFields(FieldsFrom(fields, i) + rest, i == 0) == Some((fields[i..], rest))
    ensures Delimited(FieldsFrom(fields, i)) || i == 0
    decreases fields, 0, |fields| - i
  {
    hide ParseField, NumbersValid, FieldText;
    var t := FieldsFrom(fields, i) + rest;
    if i == |fields| {
      assert t == "}" + rest;
      assert t[1..] == rest && fields[i..] == [];
    } else {
      var more := FieldsFrom(fields, i + 1) + rest;
      var start := FieldText(fields[i]) + more;
      assert t == Separator(i) + start;
      FieldsRoundTrip(fields, i + 1, rest);
      assert more[0] == FieldsFrom(fields, i + 1)[0];
      FieldRoundTrip(fields[i], more);
      assert t == if i == 0 then start else "," + start;
      assert i > 0 ==> t[1..] == start;
      assert start[0] == FieldText(fields[i])[0];
      assert fields[i..] == [fields[i]] + fields[i + 1..];
    }
  }

  lemma QuotedStart(s: string)
    ensures Quote(s) != "" && Quote(s)[0] == '"'
  {}

  lemma {:induction false} FieldRoundTrip(f: Field, rest: string)
    requires NumbersValid(f.value) && Delimited(rest)
    ensures ParseField(FieldText(f) + rest) == Some((f, rest))
    ensures FieldText(f) != "" && FieldText(f)[0] == '"'
    decreases f, 1
  {
    hide Parse, Text, NumbersValid, ParseString, Quote, Escape, Delimited;
    var more := ":" + (Text(f.value) + rest);
    QuotedRoundTrip(f.key, more);
    assert FieldText(f) + rest == Quote(f.key) + more;
    assert FieldText(f) == Quote(f.key) + (":" + Text(f.value));
    QuotedStart(f.key);
    RoundTrip(f.value, rest);
    assert more[1..] == Text(f.value) + rest;
  }

  /** The printer loses nothing: equal texts, even inside longer texts, come from equal values. */
  lemma TextInjective(v: Json, w: Json, restV: string, restW: string)
    requires NumbersValid(v) && NumbersValid(w) && Delimited(restV) && Delimited(restW)
    requires Text(v) + restV == Text(w) + restW
    ensures v == w && restV == restW
  {
    RoundTrip(v, restV);
    RoundTrip(w, restW);
  }
}
