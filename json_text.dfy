/**
 * `json.dumps` of the dictionaries the stream emits: string keys mapped to
 * string values, in insertion order, written with the default separators
 * `", "` and `": "` and with `ensure_ascii` on. Every character outside
 * printable ASCII, and the quote and the backslash, is written as an escape,
 * as section 7 of RFC 8259 requires of control characters; so the text holds
 * printable ASCII only and never the record separator U+001E.
 */
module JsonText {
  import opened Wrappers

  /** A dictionary of strings as Python keeps it: pairs in insertion order. */
  type Record = seq<(string, string)>

  /** Space to tilde: the characters `ensure_ascii` writes as themselves. */
  predicate Printable(c: char) {
    ' ' <= c <= '~'
  }

  ghost predicate AllPrintable(s: string) {
    forall i :: 0 <= i < |s| ==> Printable(s[i])
  }

  /** A lower-case hexadecimal digit. */
  function HexDigit(d: nat): (c: char)
    requires d < 16
    ensures Printable(c)
  {
    if d < 10 then ('0' as int + d) as char else ('a' as int + d - 10) as char
  }

  /** Four hexadecimal digits, as `'\\u{0:04x}'` writes them. */
  function Hex4(n: nat): (r: string)
    requires n < 0x10000
    ensures |r| == 4 && AllPrintable(r)
  {
    [HexDigit(n / 0x1000), HexDigit(n / 0x100 % 16), HexDigit(n / 16 % 16), HexDigit(n % 16)]
  }

  /** The escape of one character. Printable characters other than the quote
      and the backslash stand for themselves; the quote, the backslash and
      five control characters have two-character escapes; every other
      character becomes `\uXXXX`, or a surrogate pair of them above U+FFFF. */
  function EscapeChar(c: char): (r: string)
    ensures r != [] && AllPrintable(r)
    ensures |r| == 1 <==> Printable(c) && c != '"' && c != '\\'
    ensures |r| == 1 ==> r[0] == c
  {
    if c == '"' then "\\\""
    else if c == '\\' then "\\\\"
    else if c == '\n' then "\\n"
    else if c == '\r' then "\\r"
    else if c == '\t' then "\\t"
    else if c as int == 0x08 then "\\b"
    else if c as int == 0x0C then "\\f"
    else if Printable(c) then [c]
    else if c as int < 0x10000 then "\\u" + Hex4(c as int)
    else
      var n := c as int - 0x10000;
      "\\u" + Hex4(0xD800 + n / 0x400) + "\\u" + Hex4(0xDC00 + n % 0x400)
  }

  /** The escaped body of a string literal. */
  function EscapeString(s: string): (r: string)
    ensures AllPrintable(r)
    ensures |r| >= |s|
  {
    if s == [] then "" else EscapeChar(s[0]) + EscapeString(s[1..])
  }

  function Quote(s: string): (r: string)
    ensures AllPrintable(r)
  {
    "\"" + EscapeString(s) + "\""
  }

  function Member(kv: (string, string)): (r: string)
    ensures AllPrintable(r)
  {
    Quote(kv.0) + ": " + Quote(kv.1)
  }

  function Members(rec: Record): (r: string)
    ensures AllPrintable(r)
  {
    if rec == [] then ""
    else if |rec| == 1 then Member(rec[0])
    else Member(rec[0]) + ", " + Members(rec[1..])
  }

  /** `json.dumps(record)`. */
  function Dumps(rec: Record): (r: string)
    ensures AllPrintable(r)
    ensures |r| >= 2 && r[0] == '{' && r[|r| - 1] == '}'
  {
    "{" + Members(rec) + "}"
  }

  // ------------------------------------------------------------------
  // Reading the text back
  // ------------------------------------------------------------------

  /** The value of a hexadecimal digit, either case. */
  function HexValue(c: char): Option<nat> {
    if '0' <= c <= '9' then Some(c as int - '0' as int)
    else if 'a' <= c <= 'f' then Some(c as int - 'a' as int + 10)
    else if 'A' <= c <= 'F' then Some(c as int - 'A' as int + 10)
    else None
  }

  /** The number four hexadecimal digits spell. */
  function Hex4Value(s: string): (r: Option<nat>)
    requires |s| == 4
    ensures r.Some? ==> r.value < 0x10000
  {
    match (HexValue(s[0]), HexValue(s[1]), HexValue(s[2]), HexValue(s[3]))
    case (Some(a), Some(b), Some(c), Some(d)) =>
      if a < 16 && b < 16 && c < 16 && d < 16 then Some(a * 0x1000 + b * 0x100 + c * 16 + d) else None
    case _ => None
  }

  lemma HexRoundTrip(d: nat)
    requires d < 16
    ensures HexValue(HexDigit(d)) == Some(d)
  {
  }

  lemma Hex4RoundTrip(n: nat)
    requires n < 0x10000
    ensures Hex4Value(Hex4(n)) == Some(n)
  {
    var q1, d := n / 16, n % 16;
    var q2, c := q1 / 16, q1 % 16;
    var a, b := q2 / 16, q2 % 16;
    assert n == 256 * q2 + (16 * c + d) && 0 <= 16 * c + d < 256;
    assert n / 0x100 == q2;
    assert n == 4096 * a + (256 * b + 16 * c + d) && 0 <= 256 * b + 16 * c + d < 4096;
    assert n / 0x1000 == a;
    HexRoundTrip(a);
    HexRoundTrip(b);
    HexRoundTrip(c);
    HexRoundTrip(d);
  }

  function Prepend(c: char, r: Option<(string, string)>): Option<(string, string)> {
    match r
    case None => None
    case Some((t, rest)) => Some(([c] + t, rest))
  }

  /** Reads the body of a string literal up to its closing quote: the text it
      stands for, and what follows the quote. Surrogate pairs are combined;
      a raw control character, an unknown escape or a lone surrogate is an
      error. */
  function ReadString(s: string): (r: Option<(string, string)>)
    decreases |s|
  {
    if s == [] then None
    else if s[0] == '"' then Some(([], s[1..]))
    else if s[0] == '\\' then
      if |s| < 2 then None
      else if s[1] == '"' then Prepend('"', ReadString(s[2..]))
      else if s[1] == '\\' then Prepend('\\', ReadString(s[2..]))
      else if s[1] == '/' then Prepend('/', ReadString(s[2..]))
      else if s[1] == 'n' then Prepend('\n', ReadString(s[2..]))
      else if s[1] == 'r' then Prepend('\r', ReadString(s[2..]))
      else if s[1] == 't' then Prepend('\t', ReadString(s[2..]))
      else if s[1] == 'b' then Prepend(0x08 as char, ReadString(s[2..]))
      else if s[1] == 'f' then Prepend(0x0C as char, ReadString(s[2..]))
      else if s[1] != 'u' || |s| < 6 then None
      else
        var h := Hex4Value(s[2..6]);
        if h.None? then None
        else if h.value < 0xD800 || 0xE000 <= h.value then Prepend(h.value as char, ReadString(s[6..]))
        else if 0xDC00 <= h.value || |s| < 12 || s[6] != '\\' || s[7] != 'u' then None
        else
          var l := Hex4Value(s[8..12]);
          if l.None? || l.value < 0xDC00 || 0xE000 <= l.value then None
          else Prepend((0x10000 + (h.value - 0xD800) * 0x400 + (l.value - 0xDC00)) as char, ReadString(s[12..]))
    else if s[0] as int < 0x20 then None
    else Prepend(s[0], ReadString(s[1..]))
  }

  /** Reading one escape gives back its character and goes on after it. */
  lemma ReadEscapeChar(c: char, u: string)
    ensures ReadString(EscapeChar(c) + u) == Prepend(c, ReadString(u))
  {
    if c == '"' || c == '\\' || c == '\n' || c == '\r' || c == '\t' || c as int == 0x08 || c as int == 0x0C {
      ReadShortEscape(c, u);
    } else if Printable(c) {
      var s := EscapeChar(c) + u;
      assert s[0] == c && s[1..] == u;
    } else if c as int < 0x10000 {
      ReadUnicodeEscape(c, u);
    } else {
      ReadSurrogatePair(c, u);
    }
  }

  lemma ReadShortEscape(c: char, u: string)
    requires c == '"' || c == '\\' || c == '\n' || c == '\r' || c == '\t' || c as int == 0x08 || c as int == 0x0C
    ensures ReadString(EscapeChar(c) + u) == Prepend(c, ReadString(u))
  {
    var s := EscapeChar(c) + u;
    assert |EscapeChar(c)| == 2 && s[0] == '\\' && s[2..] == u;
  }

  lemma ReadUnicodeEscape(c: char, u: string)
    requires !Printable(c) && c as int < 0x10000
    requires !(c == '"' || c == '\\' || c == '\n' || c == '\r' || c == '\t' || c as int == 0x08 || c as int == 0x0C)
    ensures ReadString(EscapeChar(c) + u) == Prepend(c, ReadString(u))
  {
    var s := EscapeChar(c) + u;
    assert EscapeChar(c) == "\\u" + Hex4(c as int);
    Hex4RoundTrip(c as int);
    assert s[0] == '\\' && s[1] == 'u' && s[2..6] == Hex4(c as int) && s[6..] == u;
    var h := Hex4Value(s[2..6]);
    assert h == Some(c as int);
    assert h.value as char == c;
  }

  lemma ReadSurrogatePair(c: char, u: string)
    requires c as int >= 0x10000
    ensures ReadString(EscapeChar(c) + u) == Prepend(c, ReadString(u))
  {
    var n := c as int - 0x10000;
    var hi, lo := 0xD800 + n / 0x400, 0xDC00 + n % 0x400;
    EscapeSupplementary(c);
    SurrogateHalves(c, hi, lo);
    ReadPair(hi, lo, u);
  }

  lemma EscapeSupplementary(c: char)
    requires c as int >= 0x10000
    ensures var n := c as int - 0x10000;
      EscapeChar(c) == "\\u" + Hex4(0xD800 + n / 0x400) + "\\u" + Hex4(0xDC00 + n % 0x400)
  {
  }

  /** The two halves of a supplementary character lie in their ranges and
      combine back into it. */
  lemma SurrogateHalves(c: char, hi: int, lo: int)
    requires c as int >= 0x10000
    requires hi == 0xD800 + (c as int - 0x10000) / 0x400 && lo == 0xDC00 + (c as int - 0x10000) % 0x400
    ensures 0xD800 <= hi < 0xDC00 <= lo < 0xE000
    ensures (0x10000 + (hi - 0xD800) * 0x400 + (lo - 0xDC00)) as char == c
  {
  }

  /** A high and a low surrogate escape read as the character they form. */
  lemma ReadPair(hi: int, lo: int, u: string)
    requires 0xD800 <= hi < 0xDC00 <= lo < 0xE000
    ensures 0x10000 + (hi - 0xD800) * 0x400 + (lo - 0xDC00) < 0x110000
    ensures ReadString("\\u" + Hex4(hi) + "\\u" + Hex4(lo) + u)
         == Prepend((0x10000 + (hi - 0xD800) * 0x400 + (lo - 0xDC00)) as char, ReadString(u))
  {
    var s := "\\u" + Hex4(hi) + "\\u" + Hex4(lo) + u;
    Hex4RoundTrip(hi);
    Hex4RoundTrip(lo);
    assert s[0] == '\\' && s[1] == 'u' && s[2..6] == Hex4(hi);
    assert s[6] == '\\' && s[7] == 'u';
    assert s[8..12] == Hex4(lo) && s[12..] == u;
    ReadPairAt(s, hi, lo);
  }

  /** The reader on a text that opens with a surrogate pair escape. */
  lemma ReadPairAt(s: string, hi: int, lo: int)
    requires 0xD800 <= hi < 0xDC00 <= lo < 0xE000 && |s| >= 12
    requires s[0] == '\\' && s[1] == 'u' && Hex4Value(s[2..6]) == Some(hi)
    requires s[6] == '\\' && s[7] == 'u' && Hex4Value(s[8..12]) == Some(lo)
    ensures ReadString(s) == Prepend((0x10000 + (hi - 0xD800) * 0x400 + (lo - 0xDC00)) as char, ReadString(s[12..]))
  {
  }

  /** Reading an escaped text closed by a quote gives back the text and
      whatever follows. */
  lemma {:induction false} ReadQuoted(t: string, u: string)
    ensures ReadString(EscapeString(t) + "\"" + u) == Some((t, u))
  {
    if t == [] {
      assert EscapeString(t) + "\"" + u == "\"" + u;
    } else {
      var rest := EscapeString(t[1..]) + "\"" + u;
      assert EscapeString(t) + "\"" + u == EscapeChar(t[0]) + rest;
      ReadEscapeChar(t[0], rest);
      ReadQuoted(t[1..], u);
      assert [t[0]] + t[1..] == t;
    }
  }

  /** Reads one `"key": "value"` member and returns what follows it. */
  function ReadMember(s: string): (r: Option<((string, string), string)>)
    ensures r.Some? ==> |r.value.1| < |s|
  {
    if s == [] || s[0] != '"' then None
    else match ReadString(s[1..])
      case None => None
      case Some((k, r1)) =>
        if |r1| < 3 || r1[0] != ':' || r1[1] != ' ' || r1[2] != '"' then None
        else match ReadString(r1[3..])
          case None => None
          case Some((v, r2)) => if |r2| < |s| then Some(((k, v), r2)) else None
  }

  /** Reads members separated by `", "` up to the closing brace, which must
      end the text. */
  function ReadMembers(s: string): Option<Record>
    decreases |s|
  {
    match ReadMember(s)
    case None => None
    case Some((kv, r)) =>
      if r == "}" then Some([kv])
      else if |r| >= 2 && r[0] == ',' && r[1] == ' ' then
        match ReadMembers(r[2..])
        case None => None
        case Some(more) => Some([kv] + more)
      else None
  }

  /** `json.loads` restricted to what `Dumps` writes: an object of string
      members. */
  function Loads(s: string): Option<Record> {
    if |s| < 2 || s[0] != '{' then None
    else if s[1..] == "}" then Some([])
    else ReadMembers(s[1..])
  }

  lemma ReadMemberOf(kv: (string, string), u: string)
    ensures ReadMember(Member(kv) + u) == Some((kv, u))
  {
    var e0, e1 := EscapeString(kv.0), EscapeString(kv.1);
    var tail := e1 + "\"" + u;
    var r1 := ": \"" + tail;
    var body := e0 + "\"" + r1;
    var s := Member(kv) + u;
    assert s == "\"" + body by {
      assert Member(kv) == "\"" + e0 + "\"" + ": " + ("\"" + e1 + "\"");
      MemberText(e0, e1, u);
    }
    assert s[1..] == body;
    ReadQuoted(kv.0, r1);
    assert r1[0] == ':' && r1[1] == ' ' && r1[2] == '"' && r1[3..] == tail;
    ReadQuoted(kv.1, u);
  }

  lemma MemberText(e0: string, e1: string, u: string)
    ensures "\"" + e0 + "\"" + ": " + ("\"" + e1 + "\"") + u == "\"" + (e0 + "\"" + (": \"" + (e1 + "\"" + u)))
  {
  }

  lemma {:induction false} ReadMembersOf(rec: Record)
    requires rec != []
    ensures ReadMembers(Members(rec) + "}") == Some(rec)
  {
    if |rec| == 1 {
      assert Members(rec) == Member(rec[0]);
      ReadMemberOf(rec[0], "}");
      assert [rec[0]] == rec;
    } else {
      ReadMembersOf(rec[1..]);
      ReadMembersStep(rec);
    }
  }

  /** One member, a separator, and the rest of the members. */
  lemma ReadMembersStep(rec: Record)
    requires |rec| >= 2 && ReadMembers(Members(rec[1..]) + "}") == Some(rec[1..])
    ensures ReadMembers(Members(rec) + "}") == Some(rec)
  {
    var m0, ms := Member(rec[0]), Members(rec[1..]);
    var tail := ms + "}";
    assert Members(rec) + "}" == m0 + (", " + tail) by {
      assert Members(rec) == m0 + ", " + ms;
      Regroup(m0, ", ", ms, "}");
    }
    ReadMembersCons(rec[0], tail, rec[1..]);
    HeadTail(rec);
  }

  lemma HeadTail<T>(s: seq<T>)
    requires s != []
    ensures [s[0]] + s[1..] == s
  {
  }

  lemma Regroup(a: string, b: string, c: string, d: string)
    ensures a + b + c + d == a + (b + (c + d))
  {
  }

  lemma ReadMembersCons(kv: (string, string), tail: string, more: Record)
    requires ReadMembers(tail) == Some(more)
    ensures ReadMembers(Member(kv) + (", " + tail)) == Some([kv] + more)
  {
    var r := ", " + tail;
    ReadMemberOf(kv, r);
    assert r[0] == ',' && r[1] == ' ' && r[2..] == tail;
    assert r != "}";
  }

  /** `json.loads(json.dumps(record)) == record`: the serialisation loses
      nothing, so distinct records have distinct texts. */
  lemma LoadsDumps(rec: Record)
    ensures Loads(Dumps(rec)) == Some(rec)
  {
    if rec == [] {
      assert Dumps(rec) == "{}";
    } else {
      var m := Members(rec);
      assert Dumps(rec) == "{" + (m + "}");
      assert |m| > 0 by {
        if |rec| == 1 {
          assert m == Member(rec[0]);
        } else {
          assert m == Member(rec[0]) + ", " + Members(rec[1..]);
        }
      }
      ReadMembersOf(rec);
      LoadsOpen(m + "}");
    }
  }

  /** A text that is not the empty object reads as its members. */
  lemma LoadsOpen(t: string)
    requires |t| >= 2
    ensures Loads("{" + t) == ReadMembers(t)
  {
    assert ("{" + t)[1..] == t;
  }
}
