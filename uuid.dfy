/** UUIDs as the conversation and message tables key them: 128-bit numbers, written
    in the canonical text form and read back the way Python's `uuid.UUID(hex=...)`
    reads a string. */
module Uuid {
  import opened Wrappers
  import Text
  import Hex

  type Uuid = n: nat | n < Hex.Pow16(32)

  /** `str(u)`: 32 lower-case hexadecimal digits grouped 8-4-4-4-12 by dashes. */
  function ToText(u: Uuid): (r: string)
    ensures |r| == 36
  {
    var h := Hex.Encode(u, 32);
    h[..8] + "-" + h[8..12] + "-" + h[12..16] + "-" + h[16..20] + "-" + h[20..]
  }

  /** The digits `uuid.UUID(hex=s)` reads from `s`: every "urn:" and then every
      "uuid:" removed, braces stripped from both ends, dashes removed. */
  function Digits(s: string): (r: string)
    ensures |r| <= |s| && '-' !in r
  {
    var t := Text.RemoveAll(Text.RemoveAll(s, "urn:"), "uuid:");
    Text.RemoveAll(Text.StripChars(t, {'{', '}'}), "-")
  }

  /** `uuid.UUID(hex=s)`: the digits must be exactly 32 hexadecimal digits.
      `None` stands for the `ValueError` Python raises otherwise. */
  function Parse(s: string): (r: Option<Uuid>)
    ensures r.Some? ==> |Digits(s)| == 32
  {
    var h := Digits(s);
    if |h| != 32 then None
    else
      match Hex.Decode(h)
      case Some(n) => Some(n)
      case None => None
  }

  /** A string is read as a UUID exactly when its clean-up leaves 32 hexadecimal
      digits, in either case; anything else is the `ValueError`. */
  lemma ParseAccepts(s: string)
    ensures Parse(s).Some? <==> |Digits(s)| == 32 && forall i :: 0 <= i < 32 ==> Hex.DigitValue(Digits(s)[i]).Some?
  {
  }

  /** Reading back the canonical text of a UUID gives the UUID. */
  lemma ParseToText(u: Uuid)
    ensures Parse(ToText(u)) == Some(u)
  {
    DigitsOfText(u);
    Hex.DecodeEncode(u, 32);
  }

  /** Distinct UUIDs have distinct canonical texts. */
  lemma ToTextInjective(a: Uuid, b: Uuid)
    ensures ToText(a) == ToText(b) <==> a == b
  {
    ParseToText(a);
    ParseToText(b);
  }

  lemma DigitsOfText(u: Uuid)
    ensures Digits(ToText(u)) == Hex.Encode(u, 32)
  {
    var s := ToText(u);
    NoColon(u);
    Text.RemoveAllAbsent(s, "urn:", ':');
    Text.RemoveAllAbsent(s, "uuid:", ':');
    NoBraceAtEnds(u);
    RemoveDashes(u);
  }

  lemma NoColon(u: Uuid)
    ensures ':' !in ToText(u)
  {
    var h := Hex.Encode(u, 32);
    assert ':' !in h by {
      forall i | 0 <= i < |h| ensures h[i] != ':' { }
    }
    assert ':' !in "-";
  }

  lemma NoBraceAtEnds(u: Uuid)
    ensures Text.StripChars(ToText(u), {'{', '}'}) == ToText(u)
  {
    var h := Hex.Encode(u, 32);
    var s := ToText(u);
    assert s[0] == h[0] && s[35] == h[31];
    assert Text.StripStart(s, {'{', '}'}) == s;
    assert Text.StripEnd(s, {'{', '}'}) == s;
  }

  lemma RemoveDashes(u: Uuid)
    ensures Text.RemoveAll(ToText(u), "-") == Hex.Encode(u, 32)
  {
    var h := Hex.Encode(u, 32);
    var a, b, c, d, e := h[..8], h[8..12], h[12..16], h[16..20], h[20..];
    DashFree(h, a, 0, 8);
    DashFree(h, b, 8, 12);
    DashFree(h, c, 12, 16);
    DashFree(h, d, 16, 20);
    DashFree(h, e, 20, 32);
    RemoveDashesGroups(a, b, c, d, e);
    Regroup(h);
  }

  lemma Regroup(h: string)
    requires |h| == 32
    ensures h[..8] + h[8..12] + h[12..16] + h[16..20] + h[20..] == h
  {
    assert h[..8] + h[8..12] == h[..12];
    assert h[..12] + h[12..16] == h[..16];
    assert h[..16] + h[16..20] == h[..20];
    assert h[..20] + h[20..] == h;
  }

  lemma RemoveDashesGroups(a: string, b: string, c: string, d: string, e: string)
    requires Text.RemoveAll(a, "-") == a && Text.RemoveAll(b, "-") == b && Text.RemoveAll(c, "-") == c
    requires Text.RemoveAll(d, "-") == d && Text.RemoveAll(e, "-") == e
    ensures Text.RemoveAll(a + "-" + b + "-" + c + "-" + d + "-" + e, "-") == a + b + c + d + e
  {
    var x1 := a + "-";
    DashRemoved(a, a);
    var x2 := x1 + b;
    RemoveDashesConcat(x1, b);
    var x3 := x2 + "-";
    DashRemoved(x2, a + b);
    var x4 := x3 + c;
    RemoveDashesConcat(x3, c);
    var x5 := x4 + "-";
    DashRemoved(x4, a + b + c);
    var x6 := x5 + d;
    RemoveDashesConcat(x5, d);
    var x7 := x6 + "-";
    DashRemoved(x6, a + b + c + d);
    RemoveDashesConcat(x7, e);
  }

  lemma DashRemoved(x: string, y: string)
    requires Text.RemoveAll(x, "-") == y
    ensures Text.RemoveAll(x + "-", "-") == y
  {
    RemoveDashesConcat(x, "-");
    assert Text.RemoveAll("-", "-") == "";
  }

  lemma RemoveDashesConcat(x: string, y: string)
    ensures Text.RemoveAll(x + y, "-") == Text.RemoveAll(x, "-") + Text.RemoveAll(y, "-")
  {
    assert "-" == ['-'];
    Text.RemoveCharConcat(x, y, '-');
  }

  /** A run of hexadecimal digits holds no dash. */
  lemma DashFree(h: string, piece: string, from: nat, to: nat)
    requires from <= to <= |h| && piece == h[from..to]
    requires forall i :: 0 <= i < |h| ==> '0' <= h[i] <= '9' || 'a' <= h[i] <= 'f'
    ensures Text.RemoveAll(piece, "-") == piece
  {
    assert '-' !in piece by {
      forall i | 0 <= i < |piece| ensures piece[i] != '-' {
        assert piece[i] == h[from + i];
      }
    }
    Text.RemoveAllAbsent(piece, "-", '-');
  }
}
