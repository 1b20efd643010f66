/** Character classes, and the clean-up every text goes through before it is laid out
    (apps/mutte/src/conversation_layout.rs). */
module Chars {

  /** Category Cc. */
  predicate IsControl(c: char) {
    c as int < 0x20 || 0x7F <= c as int <= 0x9F
  }

  /** The White_Space property. */
  predicate IsWhitespace(c: char) {
    var u := c as int;
    || 0x09 <= u <= 0x0D || u in {0x20, 0x85, 0xA0, 0x1680} || 0x2000 <= u <= 0x200A
    || u in {0x2028, 0x2029, 0x202F, 0x205F, 0x3000}
  }

  predicate IsAsciiAlphanumeric(c: char) {
    '0' <= c <= '9' || 'A' <= c <= 'Z' || 'a' <= c <= 'z'
  }

  /** The bytes of a string in UTF-8. */
  function Utf8Length(s: string): nat {
    if s == [] then 0
    else
      var u := s[0] as int;
      (if u < 0x80 then 1 else if u < 0x800 then 2 else if u < 0x1_0000 then 3 else 4) + Utf8Length(s[1..])
  }

  /** Every CR LF pair becomes LF. */
  function Unix(s: string): string {
    if |s| >= 2 && s[0] == '\r' && s[1] == '\n' then ['\n'] + Unix(s[2..])
    else if s == [] then []
    else [s[0]] + Unix(s[1..])
  }

  function Visible(c: char): string {
    if c == '\t' then "    "
    else if c == '\n' then [c]
    else if IsControl(c) then ['\U{FFFD}']
    else [c]
  }

  function Each(s: string): string {
    if s == [] then [] else Visible(s[0]) + Each(s[1..])
  }

  /** The text a terminal can show. */
  function Printable(s: string): string { Each(Unix(s)) }

  ghost predicate Clean(s: string) {
    forall c :: c in s ==> c == '\n' || !IsControl(c)
  }

  lemma {:induction false} EachIsClean(s: string)
    ensures Clean(Each(s))
  {
    if s != [] {
      EachIsClean(s[1..]);
    }
  }

  lemma {:induction false} CleanIsFixed(s: string)
    requires Clean(s)
    ensures Unix(s) == s && Each(s) == s
  {
    if s != [] {
      assert IsControl('\r') && IsControl('\t');
      assert s[0] in s;
      CleanIsFixed(s[1..]);
      assert s == [s[0]] + s[1..];
    }
  }

  /** No control character but the line feed survives, and a text already clean is left alone;
      so cleaning twice is cleaning once. */
  lemma PrintableIsClean(s: string)
    ensures Clean(Printable(s)) && Printable(Printable(s)) == Printable(s)
    ensures Printable(s) == s <==> Clean(s)
  {
    EachIsClean(Unix(s));
    CleanIsFixed(Printable(s));
    if Clean(s) { CleanIsFixed(s); }
  }

  // ---------------------------------------------------------------- character by character

  lemma {:induction false} EachConcat(a: string, b: string)
    ensures Each(a + b) == Each(a) + Each(b)
  {
    if a == [] {
      assert a + b == b;
    } else {
      assert (a + b)[1..] == a[1..] + b;
      EachConcat(a[1..], b);
    }
  }

  lemma {:induction false} UnixConcat(a: string, b: string)
    requires a == [] || b == [] || a[|a| - 1] != '\r' || b[0] != '\n'
    ensures Unix(a + b) == Unix(a) + Unix(b)
  {
    if a == [] {
      assert a + b == b;
    } else if |a| >= 2 && a[0] == '\r' && a[1] == '\n' {
      assert (a + b)[2..] == a[2..] + b;
      UnixConcat(a[2..], b);
    } else {
      assert (a + b)[1..] == a[1..] + b;
      UnixConcat(a[1..], b);
      assert |a| == 1 && b != [] ==> (a + b)[1] == b[0];
    }
  }

  /** A text is cleaned piece by piece, unless a line break of two characters is torn apart. */
  lemma PrintableConcat(a: string, b: string)
    requires a == [] || b == [] || a[|a| - 1] != '\r' || b[0] != '\n'
    ensures Printable(a + b) == Printable(a) + Printable(b)
  {
    UnixConcat(a, b);
    EachConcat(Unix(a), Unix(b));
  }

  /** Such a break is a line feed, a line feed stays one, a tab is four spaces, any other control
      character is shown by the replacement character, and everything else is as it was. */
  lemma PrintableUnits(c: char)
    ensures Printable("\r\n") == "\n"
    ensures Printable([c]) == (if c == '\t' then "    " else if c != '\n' && IsControl(c) then "\U{FFFD}" else [c])
  {
    assert "\r\n"[2..] == "" && [c][1..] == [];
    assert Unix("\r\n") == "\n" && "\n"[1..] == "";
    assert Unix([c]) == [c];
  }
}
