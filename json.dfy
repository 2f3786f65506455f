/** The text `json.dumps(records, indent=2)` produces for a list of objects whose
    members are all strings, with Python's default `ensure_ascii=True`. */
module Json {
  import Hex

  /** One object: its members' names and string values, in insertion order. */
  type Record = seq<(string, string)>

  /** The characters `ensure_ascii` leaves unescaped: space through tilde. */
  predicate Printable(c: char) {
    ' ' <= c <= '~'
  }

  /** Text made of printable ASCII and line breaks only. */
  predicate AsciiText(s: string) {
    forall i :: 0 <= i < |s| ==> Printable(s[i]) || s[i] == '\n'
  }

  lemma AsciiConcat(a: string, b: string)
    requires AsciiText(a) && AsciiText(b)
    ensures AsciiText(a + b)
  {
    forall i | 0 <= i < |a + b| ensures Printable((a + b)[i]) || (a + b)[i] == '\n' {
      if i >= |a| {
        assert (a + b)[i] == b[i - |a|];
      }
    }
  }

  /** `\uXXXX`, lower-case hexadecimal. */
  function UnicodeEscape(n: nat): (r: string)
    requires n < 0x10000
    ensures |r| == 6 && forall i :: 0 <= i < |r| ==> Printable(r[i])
  {
    "\\u" + Hex.Encode(n, 4)
  }

  /** How one character of a string is written: the two-character escapes for the
      quote, the backslash and five control characters; printable ASCII as is;
      every other character as `\uXXXX`, and one beyond the Basic Multilingual
      Plane as its UTF-16 surrogate pair. */
  function EscapeChar(c: char): (r: string)
    ensures r != [] && forall i :: 0 <= i < |r| ==> Printable(r[i])
  {
    if c == '"' then "\\\""
    else if c == '\\' then "\\\\"
    else if c == '\n' then "\\n"
    else if c == '\r' then "\\r"
    else if c == '\t' then "\\t"
    else if c == '\U{08}' then "\\b"
    else if c == '\U{0C}' then "\\f"
    else if Printable(c) then [c]
    else if (c as int) < 0x10000 then UnicodeEscape(c as int)
    else
      var n := c as int - 0x10000;
      UnicodeEscape(0xD800 + n / 0x400) + UnicodeEscape(0xDC00 + n % 0x400)
  }

  /** The body of a string literal: every character escaped in turn. */
  function Escape(s: string): (r: string)
    ensures forall i :: 0 <= i < |r| ==> Printable(r[i])
  {
    if s == [] then "" else EscapeChar(s[0]) + Escape(s[1..])
  }

  /** A string literal. */
  function Quote(s: string): (r: string)
    ensures AsciiText(r)
  {
    "\"" + Escape(s) + "\""
  }

  /** The members of a non-empty object at nesting level 2, each on its own line. */
  function DumpMembers(r: Record): (t: string)
    requires r != []
    ensures AsciiText(t)
  {
    var first := "\n    " + Quote(r[0].0) + ": " + Quote(r[0].1);
    AsciiConcat("\n    " + Quote(r[0].0), ": ");
    AsciiConcat("\n    " + Quote(r[0].0) + ": ", Quote(r[0].1));
    if |r| == 1 then first
    else
      AsciiConcat(first, ",");
      AsciiConcat(first + ",", DumpMembers(r[1..]));
      first + "," + DumpMembers(r[1..])
  }

  /** One object at nesting level 1: `{}` when it has no members. */
  function DumpRecord(r: Record): (t: string)
    ensures AsciiText(t)
  {
    if r == [] then "{}"
    else
      AsciiConcat("{", DumpMembers(r));
      AsciiConcat("{" + DumpMembers(r), "\n  }");
      "{" + DumpMembers(r) + "\n  }"
  }

  /** The items of a non-empty list, each on its own line. */
  function DumpItems(rs: seq<Record>): (t: string)
    requires rs != []
    ensures AsciiText(t)
  {
    var first := "\n  " + DumpRecord(rs[0]);
    AsciiConcat("\n  ", DumpRecord(rs[0]));
    if |rs| == 1 then first
    else
      AsciiConcat(first, ",");
      AsciiConcat(first + ",", DumpItems(rs[1..]));
      first + "," + DumpItems(rs[1..])
  }

  /** `json.dumps(rs, indent=2)`: `[]` for the empty list, otherwise one item per
      line between brackets. */
  function DumpRecords(rs: seq<Record>): (t: string)
    ensures AsciiText(t)
    ensures t == "[]" <==> rs == []
    ensures |t| >= 2 && t[0] == '[' && t[|t| - 1] == ']'
  {
    if rs == [] then "[]"
    else
      AsciiConcat("[", DumpItems(rs));
      AsciiConcat("[" + DumpItems(rs), "\n]");
      "[" + DumpItems(rs) + "\n]"
  }
}
