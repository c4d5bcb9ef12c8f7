/** JSON values and the exact length of their compact encoding. */
module Json {
  import opened Prelude

  const U64_MAX: nat := 0xFFFF_FFFF_FFFF_FFFF

  type U64 = n: nat | n <= U64_MAX

  datatype Json =
    | Null
    | Bool(b: bool)
    | Number(text: string)
    | Str(s: string)
    | List(items: seq<Json>)
    | Obj(fields: seq<Member>)

  datatype Member = Member(key: string, value: Json)

  /** How many bytes one character takes inside an encoded string: its UTF-8 width, or its escape's. */
  function CharSize(c: char): (n: nat)
    ensures 1 <= n <= 6
  {
    if c == '\"' || c == '\\' then 2
    else if c in {'\U{8}', '\t', '\n', '\U{C}', '\r'} then 2
    else if c < ' ' then 6
    else if c as int < 0x80 then 1
    else if c as int < 0x800 then 2
    else if c as int < 0x1_0000 then 3
    else 4
  }

  function CharsSize(s: string): nat {
    if s == [] then 0 else CharsSize(s[..|s| - 1]) + CharSize(s[|s| - 1])
  }

  /** An encoded string with its quotes. */
  function StrSize(s: string): nat { 2 + CharsSize(s) }

  function Size(j: Json): nat {
    match j
    case Null => 4
    case Bool(b) => if b then 4 else 5
    case Number(text) => |text|
    case Str(s) => StrSize(s)
    case List(items) => 2 + ItemsSize(items) + Commas(|items|)
    case Obj(fields) => 2 + FieldsSize(fields) + Commas(|fields|)
  }

  function Commas(n: nat): nat { if n == 0 then 0 else n - 1 }

  function ItemsSize(items: seq<Json>): nat {
    if items == [] then 0 else Size(items[0]) + ItemsSize(items[1..])
  }

  function FieldsSize(fields: seq<Member>): nat {
    if fields == [] then 0 else StrSize(fields[0].key) + 1 + Size(fields[0].value) + FieldsSize(fields[1..])
  }

  // ---------------------------------------------------- the encoded text

  type byte = n: int | 0 <= n < 256

  /** UTF-8. */
  function Utf8(c: char): (u: seq<byte>)
    ensures 1 <= |u| <= 4
  {
    var n := c as int;
    if n < 0x80 then [n]
    else if n < 0x800 then [0xC0 + n / 0x40, 0x80 + n % 0x40]
    else if n < 0x1_0000 then [0xE0 + n / 0x1000, 0x80 + n / 0x40 % 0x40, 0x80 + n % 0x40]
    else [0xF0 + n / 0x4_0000, 0x80 + n / 0x1000 % 0x40, 0x80 + n / 0x40 % 0x40, 0x80 + n % 0x40]
  }

  function HexDigit(n: nat): byte
    requires n < 16
  {
    if n < 10 then 48 + n else 87 + n
  }

  const BACKSLASH: byte := 92

  /** A character inside a string: the short escapes, `\u00xx` for other control characters, or itself. */
  function CharText(c: char): seq<byte> {
    match c as int
    case 34 => [BACKSLASH, 34]
    case 92 => [BACKSLASH, 92]
    case 8 => [BACKSLASH, 98]
    case 9 => [BACKSLASH, 116]
    case 10 => [BACKSLASH, 110]
    case 12 => [BACKSLASH, 102]
    case 13 => [BACKSLASH, 114]
    case n => if n < 32 then [BACKSLASH, 117, 48, 48, HexDigit(n / 16), HexDigit(n % 16)] else Utf8(c)
  }

  function CharsText(s: string): seq<byte> { if s == [] then [] else CharText(s[0]) + CharsText(s[1..]) }

  function StrText(s: string): seq<byte> { [34] + CharsText(s) + [34] }

  function AsciiText(s: string): (t: seq<byte>)
    ensures |t| == |s|
  {
    seq(|s|, i requires 0 <= i < |s| => s[i] as int % 256)
  }

  /** The compact text of a value. */
  function Rendered(j: Json): seq<byte> {
    match j
    case Null => AsciiText("null")
    case Bool(b) => AsciiText(if b then "true" else "false")
    case Number(text) => AsciiText(text)
    case Str(s) => StrText(s)
    case List(items) => AsciiText("[") + RenderedItems(items) + AsciiText("]")
    case Obj(fields) => AsciiText("{") + RenderedFields(fields) + AsciiText("}")
  }

  function RenderedItems(items: seq<Json>): seq<byte> {
    if items == [] then []
    else if |items| == 1 then Rendered(items[0])
    else Rendered(items[0]) + AsciiText(",") + RenderedItems(items[1..])
  }

  function RenderedFields(fields: seq<Member>): seq<byte> {
    if fields == [] then []
    else
      var first := StrText(fields[0].key) + AsciiText(":") + Rendered(fields[0].value);
      if |fields| == 1 then first else first + AsciiText(",") + RenderedFields(fields[1..])
  }

  lemma CharTextSize(c: char)
    ensures |CharText(c)| == CharSize(c)
  {
  }

  lemma {:induction false} CharsTextSize(s: string)
    ensures |CharsText(s)| == CharsSize(s)
  {
    if s != [] {
      CharTextSize(s[0]);
      CharsTextSize(s[1..]);
      FirstCharSize(s);
    }
  }

  lemma {:induction false} FirstCharSize(s: string)
    requires s != []
    ensures CharsSize(s) == CharSize(s[0]) + CharsSize(s[1..])
  {
    hide CharSize;
    if |s| > 1 {
      FirstCharSize(s[..|s| - 1]);
      assert s[..|s| - 1][1..] == s[1..][..|s| - 2];
    } else {
      assert s[..0] == [] && s[1..] == [];
    }
  }

  /** The size of a value is the length of its text. */
  lemma {:induction false} SizeIsLength(j: Json)
    ensures |Rendered(j)| == Size(j)
  {
    hide CharsText, CharsSize;
    match j
    case Str(s) => CharsTextSize(s);
    case List(items) => ItemsLength(items);
    case Obj(fields) => FieldsLength(fields);
    case _ =>
  }

  lemma {:induction false} ItemsLength(items: seq<Json>)
    ensures |RenderedItems(items)| == ItemsSize(items) + Commas(|items|)
  {
    hide Rendered, Size;
    if items != [] {
      SizeIsLength(items[0]);
      ItemsLength(items[1..]);
    }
  }

  lemma {:induction false} FieldsLength(fields: seq<Member>)
    ensures |RenderedFields(fields)| == FieldsSize(fields) + Commas(|fields|)
  {
    hide Rendered, Size, CharsText, CharsSize;
    if fields != [] {
      CharsTextSize(fields[0].key);
      SizeIsLength(fields[0].value);
      FieldsLength(fields[1..]);
    }
  }

  lemma {:induction false} FieldsConcat(a: seq<Member>, b: seq<Member>)
    ensures FieldsSize(a + b) == FieldsSize(a) + FieldsSize(b)
  {
    if a == [] {
      assert a + b == b;
    } else {
      FieldsConcat(a[1..], b);
      assert (a + b)[1..] == a[1..] + b && (a + b)[0] == a[0];
    }
  }

  /** `Value::get`: a field of an object; anything else has none. */
  function Get(j: Json, key: string): Option<Json> {
    if j.Obj? then Field(j.fields, key) else None
  }

  function Field(fields: seq<Member>, key: string): Option<Json> {
    if fields == [] then None else if fields[0].key == key then Some(fields[0].value) else Field(fields[1..], key)
  }

  /** The first field of that name is the one found. */
  lemma {:induction false} SkipTo(fields: seq<Member>, key: string, i: nat)
    requires i < |fields| && fields[i].key == key && forall j :: 0 <= j < i ==> fields[j].key != key
    ensures Field(fields, key) == Some(fields[i].value)
  {
    if i > 0 { SkipTo(fields[1..], key, i - 1); }
  }

  /** The string a field holds, if it holds one. */
  function GetStr(j: Json, key: string): Option<string> {
    match Get(j, key) case Some(Str(s)) => Some(s) case _ => None
  }

  /** An object's length: its braces, its fields, and a comma between them. */
  lemma ObjSize(fields: seq<Member>)
    requires fields != []
    ensures Size(Obj(fields)) == 1 + FieldsSize(fields) + |fields|
  {
    hide FieldsSize;
  }

  lemma OneField(m: Member)
    ensures FieldsSize([m]) == StrSize(m.key) + 1 + Size(m.value)
  {
    hide StrSize;
    assert [m][1..] == [];
  }

  lemma ThreeFields(a: Member, b: Member, c: Member)
    ensures FieldsSize([a, b, c]) == StrSize(a.key) + StrSize(b.key) + StrSize(c.key) + 3 + Size(a.value) + Size(b.value) + Size(c.value)
  {
    hide StrSize, FieldsSize, Size;
    assert [a, b, c] == [a] + ([b] + [c]);
    FieldsConcat([a], [b] + [c]);
    FieldsConcat([b], [c]);
    OneField(a);
    OneField(b);
    OneField(c);
  }

  lemma {:induction false} WidestSize(s: string)
    ensures CharsSize(s) <= 6 * |s|
  {
    if s != [] { WidestSize(s[..|s| - 1]); }
  }
}
