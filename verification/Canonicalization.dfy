/** continuity-core/src/canonicalization.rs: the value type and the canonical printer.  A
    BTreeMap is the list of its entries in key order. */
module Canonicalization {
  import opened Prelude
  import opened JsonNumber

  datatype Json =
    | Null
    | Bool(b: bool)
    | Number(text: string)
    | String(s: string)
    | Array(items: seq<Json>)
    | Object(fields: seq<Field>)

  datatype Field = Field(key: string, value: Json)

  // ----- Specification of the printer -----

  function EscapeChar(c: char): (text: string)
    ensures text != ""
  {
    if c == '"' then "\\\""
    else if c == '\\' then "\\\\"
    else if c == '\U{08}' then "\\b"
    else if c == '\U{0c}' then "\\f"
    else if c == '\n' then "\\n"
    else if c == '\r' then "\\r"
    else if c == '\t' then "\\t"
    else if c <= '\U{1f}' then "\\u" + Hex(c as nat, 4)
    else [c]
  }

  function Escape(s: string): string {
    if s == "" then "" else EscapeChar(s[0]) + Escape(s[1..])
  }

  function Quote(s: string): string { "\"" + Escape(s) + "\"" }

  function Text(v: Json): (text: string)
    decreases v, 1
  {
    match v
    case Null => "null"
    case Bool(b) => if b then "true" else "false"
    case Number(text) => text
    case String(s) => Quote(s)
    case Array(items) => "[" + ItemsFrom(items, 0)
    case Object(fields) => "{" + FieldsFrom(fields, 0)
  }

  function Separator(i: nat): string { if i == 0 then "" else "," }

  /** What follows the first `i` items of an array, with its closing bracket. */
  function ItemsFrom(items: seq<Json>, i: nat): string
    requires i <= |items|
    decreases items, 0, |items| - i
  {
    if i == |items| then "]" else Separator(i) + Text(items[i]) + ItemsFrom(items, i + 1)
  }

  function FieldsFrom(fields: seq<Field>, i: nat): string
    requires i <= |fields|
    decreases fields, 0, |fields| - i
  {
    if i == |fields| then "}" else Separator(i) + FieldText(fields[i]) + FieldsFrom(fields, i + 1)
  }

  function FieldText(f: Field): string
    decreases f, 0
  {
    Quote(f.key) + ":" + Text(f.value)
  }

  ghost predicate NumbersValid(v: Json) {
    match v
    case Number(text) => IsNumber(text)
    case Array(items) => forall i :: 0 <= i < |items| ==> NumbersValid(items[i])
    case Object(fields) => forall i :: 0 <= i < |fields| ==> NumbersValid(fields[i].value)
    case _ => true
  }

  // ----- The printer -----

  class Buffer {
    var text: string

    constructor ()
      ensures text == ""
    {
      text := "";
    }

    method Push(c: char)
      modifies this
      ensures text == old(text) + [c]
    {
      text := text + [c];
    }

    method PushStr(s: string)
      modifies this
      ensures text == old(text) + s
    {
      text := text + s;
    }
  }

  /** None stands for the MalformedNumber error. */
  method CanonicalString(value: Json) returns (r: Option<string>)
    ensures r == if NumbersValid(value) then Some(Text(value)) else None
  {
    var out := new Buffer();
    var ok := WriteCanonical(value, out);
    assert "" + Text(value) == Text(value);
    return if ok then Some(out.text) else None;
  }

  method WriteCanonical(value: Json, out: Buffer) returns (ok: bool)
    modifies out
    ensures ok <==> NumbersValid(value)
    ensures ok ==> out.text == old(out.text) + Text(value)
    decreases value
  {
    hide ItemsFrom, FieldsFrom, Quote, IsNumber;
    match value
    case Null => out.PushStr("null"); return true;
    case Bool(b) => out.PushStr(if b then "true" else "false"); return true;
    case Number(number) =>
      var valid := IsValidJsonNumber(number);
      if !valid {
        return false;
      }
      out.PushStr(number);
      return true;
    case String(s) => WriteJsonString(s, out); return true;
    case Array(items) =>
      ghost var before := out.text;
      out.Push('[');
      ok := WriteItems(items, out);
      Regroup(before, "[", ItemsFrom(items, 0), "");
    case Object(fields) =>
      ghost var before := out.text;
      out.Push('{');
      ok := WriteFields(fields, out);
      Regroup(before, "{", FieldsFrom(fields, 0), "");
  }

  method WriteItems(items: seq<Json>, out: Buffer) returns (ok: bool)
    modifies out
    ensures ok <==> forall i :: 0 <= i < |items| ==> NumbersValid(items[i])
    ensures ok ==> out.text == old(out.text) + ItemsFrom(items, 0)
    decreases items
  {
    hide Text, NumbersValid;
    ghost var before := out.text;
    for index := 0 to |items|
      invariant forall i :: 0 <= i < index ==> NumbersValid(items[i])
      invariant out.text + ItemsFrom(items, index) == before + ItemsFrom(items, 0)
    {
      ghost var start := out.text;
      if index > 0 {
        out.Push(',');
      }
      assert out.text == start + Separator(index);
      var done := WriteCanonical(items[index], out);
      if !done {
        return false;
      }
      Regroup(start, Separator(index), Text(items[index]), ItemsFrom(items, index + 1));
    }
    out.Push(']');
    return true;
  }

  method WriteFields(fields: seq<Field>, out: Buffer) returns (ok: bool)
    modifies out
    ensures ok <==> forall i :: 0 <= i < |fields| ==> NumbersValid(fields[i].value)
    ensures ok ==> out.text == old(out.text) + FieldsFrom(fields, 0)
    decreases fields
  {
    hide Text, NumbersValid, Quote;
    ghost var before := out.text;
    for index := 0 to |fields|
      invariant forall i :: 0 <= i < index ==> NumbersValid(fields[i].value)
      invariant out.text + FieldsFrom(fields, index) == before + FieldsFrom(fields, 0)
    {
      ghost var start := out.text;
      if index > 0 {
        out.Push(',');
      }
      ghost var lead := out.text;
      assert lead == start + Separator(index);
      WriteJsonString(fields[index].key, out);
      out.Push(':');
      var done := WriteCanonical(fields[index].value, out);
      if !done {
        return false;
      }
      assert out.text == lead + FieldText(fields[index]);
      Regroup(start, Separator(index), FieldText(fields[index]), FieldsFrom(fields, index + 1));
    }
    out.Push('}');
    return true;
  }

  lemma Regroup(a: string, b: string, c: string, d: string)
    ensures a + b + c + d == a + (b + c + d)
  {}

  method WriteJsonString(value: string, out: Buffer)
    modifies out
    ensures out.text == old(out.text) + Quote(value)
  {
    hide EscapeChar;
    ghost var before := out.text;
    out.Push('"');
    for i := 0 to |value|
      invariant out.text + Escape(value[i..]) == before + ['"'] + Escape(value)
    {
      ghost var start := out.text;
      out.PushStr(EscapeChar(value[i]));
      assert value[i..][1..] == value[i + 1..];
      Regroup(start, EscapeChar(value[i]), Escape(value[i + 1..]), "");
    }
    assert out.text == before + ['"'] + Escape(value);
    out.Push('"');
    Regroup(before, "\"", Escape(value), "\"");
  }
}
