/**
  How the server reads a quoted string: `get_text` of drizzled/sql_lex.cc, with
  the character lengths of drizzled/ctype-utf8.cc.  It is the reader that the
  dump program's quoting has to agree with.
 */
module ServerText {
  import opened Rds
  import opened Scanner

  // ---------------------------------------------------------------- characters

  predicate Continues(c: byte) {
    0x80 <= c < 0xC0
  }

  /** `my_ismbchar`: the length of the multi-byte character at the front, 0 if there is none. */
  function MbLength(multi: bool, s: bytes): (k: nat)
    ensures k == 0 || 2 <= k <= |s|
  {
    if !multi || s == [] then 0
    else
      var c := s[0];
      if 0xC2 <= c < 0xE0 then (if |s| >= 2 && Continues(s[1]) then 2 else 0)
      else if 0xE0 <= c < 0xF0 then
        (if |s| >= 3 && Continues(s[1]) && Continues(s[2]) && (c >= 0xE1 || s[1] >= 0xA0) then 3 else 0)
      else if 0xF0 <= c < 0xF8 then
        (if |s| >= 4 && Continues(s[1]) && Continues(s[2]) && Continues(s[3]) && (c >= 0xF1 || s[1] >= 0x90) then 4 else 0)
      else 0
  }

  lemma MultiByteIsHigh(multi: bool, s: bytes)
    ensures forall i :: 0 <= i < MbLength(multi, s) ==> s[i] >= 0x80
  {
  }

  // ---------------------------------------------------------------- get_text

  function Plus(k: nat, n: Option<nat>): Option<nat> {
    if n.Some? then Some(k + n.value) else None
  }

  /** First pass, behind the opening separator: where the closing one stands. */
  function Body(multi: bool, sep: byte, q: bytes): (n: Option<nat>)
    ensures n.Some? ==> n.value < |q|
    decreases |q|
  {
    if q == [] then None
    else
      var k := MbLength(multi, q);
      if k != 0 then Plus(k, Body(multi, sep, q[k..]))
      else if q[0] == BACKSLASH then (if |q| == 1 then None else Plus(2, Body(multi, sep, q[2..])))
      else if q[0] == sep then (if |q| > 1 && q[1] == sep then Plus(2, Body(multi, sep, q[2..])) else Some(0))
      else Plus(1, Body(multi, sep, q[1..]))
  }

  /** What a backslash and the character behind it stand for. */
  function Meaning(c: byte): bytes {
    if c == 110 then [10]
    else if c == 116 then [9]
    else if c == 114 then [13]
    else if c == 98 then [8]
    else if c == 48 then [0]
    else if c == 90 then [26]
    else if c == 95 || c == 37 then [BACKSLASH, c]
    else [c]
  }

  /** Second pass: the string that the body stands for. */
  function Unescaped(multi: bool, sep: byte, b: bytes): bytes
    decreases |b|
  {
    if b == [] then []
    else
      var k := MbLength(multi, b);
      if k != 0 then b[..k] + Unescaped(multi, sep, b[k..])
      else if b[0] == BACKSLASH && |b| > 1 then Meaning(b[1]) + Unescaped(multi, sep, b[2..])
      else if b[0] == sep && |b| > 1 then [sep] + Unescaped(multi, sep, b[2..])
      else [b[0]] + Unescaped(multi, sep, b[1..])
  }

  /** `get_text` behind the opening separator: the string, and what follows the closing separator. */
  function ReadText(multi: bool, sep: byte, q: bytes): Option<(bytes, bytes)> {
    var n := Body(multi, sep, q);
    if n.Some? then Some((Unescaped(multi, sep, q[..n.value]), q[n.value + 1..])) else None
  }

  // ---------------------------------------------------------------- characters do not matter

  lemma {:induction false} BodySkipsHigh(sep: byte, q: bytes, k: nat)
    requires k <= |q| && sep < 0x80 && forall i :: 0 <= i < k ==> q[i] >= 0x80
    ensures Body(false, sep, q) == Plus(k, Body(false, sep, q[k..]))
  {
    if k > 0 {
      BodySkipsHigh(sep, q[1..], k - 1);
      assert q[1..][k - 1..] == q[k..];
    }
  }

  lemma UnescapedFirst(sep: byte, b: bytes)
    requires sep < 0x80 && b != [] && b[0] >= 0x80
    ensures Unescaped(false, sep, b) == [b[0]] + Unescaped(false, sep, b[1..])
  {
  }

  lemma {:induction false} UnescapedKeepsHigh(sep: byte, b: bytes, k: nat)
    requires k <= |b| && sep < 0x80 && forall i :: 0 <= i < k ==> b[i] >= 0x80
    ensures Unescaped(false, sep, b) == b[..k] + Unescaped(false, sep, b[k..])
  {
    hide Unescaped;
    if k > 0 {
      UnescapedKeepsHigh(sep, b[1..], k - 1);
      UnescapedFirst(sep, b);
      assert b[1..][k - 1..] == b[k..];
      assert [b[0]] + b[1..][..k - 1] == b[..k];
    } else {
      assert b[0..] == b && b[..0] == [];
    }
  }

  lemma {:induction false} BodyByBytes(multi: bool, sep: byte, q: bytes)
    requires sep < 0x80
    ensures Body(multi, sep, q) == Body(false, sep, q)
    decreases |q|
  {
    if q != [] {
      MultiByteIsHigh(multi, q);
      assert MbLength(false, q) == 0;
      hide MbLength;
      var k := MbLength(multi, q);
      if k != 0 {
        BodySkipsHigh(sep, q, k);
        BodyByBytes(multi, sep, q[k..]);
      } else {
        BodyByBytes(multi, sep, q[1..]);
        if |q| > 1 {
          BodyByBytes(multi, sep, q[2..]);
        }
      }
    }
  }

  lemma {:induction false} UnescapedByBytes(multi: bool, sep: byte, b: bytes)
    requires sep < 0x80
    ensures Unescaped(multi, sep, b) == Unescaped(false, sep, b)
    decreases |b|
  {
    if b != [] {
      MultiByteIsHigh(multi, b);
      assert MbLength(false, b) == 0;
      hide MbLength;
      var k := MbLength(multi, b);
      if k != 0 {
        UnescapedKeepsHigh(sep, b, k);
        UnescapedByBytes(multi, sep, b[k..]);
      } else {
        UnescapedByBytes(multi, sep, b[1..]);
        if |b| > 1 {
          UnescapedByBytes(multi, sep, b[2..]);
        }
      }
    }
  }

  /** Law: the server reads every query, malformed UTF-8 included, as if it did not know characters. */
  lemma ReadsByBytes(multi: bool, sep: byte, q: bytes)
    requires sep < 0x80
    ensures ReadText(multi, sep, q) == ReadText(false, sep, q)
  {
    BodyByBytes(multi, sep, q);
    var n := Body(multi, sep, q);
    if n.Some? {
      UnescapedByBytes(multi, sep, q[..n.value]);
    }
  }

  // ---------------------------------------------------------------- quoted names

  /** `my_mbcharlen`: the length that a leading byte announces, 0 if it cannot lead a character. */
  function CharLength(c: byte): nat {
    if c < 0x80 then 1 else if 0xC2 <= c < 0xE0 then 2 else if 0xE0 <= c < 0xF0 then 3 else if 0xF0 <= c < 0xF8 then 4 else 0
  }

  /** Behind the opening quote of a name: where the closing one stands. */
  function NameEnd(quote: byte, q: bytes): (n: Option<nat>)
    ensures n.Some? ==> n.value < |q|
    decreases |q|
  {
    if q == [] || q[0] == 0 then None
    else
      var k := CharLength(q[0]);
      if k == 0 || k > |q| then None
      else if k > 1 || q[0] != quote then Plus(k, NameEnd(quote, q[k..]))
      else if At(q, 1) != quote then Some(0)
      else if |q| < 2 then None
      else Plus(2, NameEnd(quote, q[2..]))
  }

  /** `get_quoted_token`: doubled quotes stand for one. */
  function Halved(quote: byte, b: bytes): bytes
    decreases |b|
  {
    if b == [] then []
    else if b[0] == quote && |b| > 1 then [quote] + Halved(quote, b[2..])
    else [b[0]] + Halved(quote, b[1..])
  }

  function ReadName(quote: byte, q: bytes): Option<(bytes, bytes)> {
    var n := NameEnd(quote, q);
    if n.Some? then Some((Halved(quote, q[..n.value]), q[n.value + 1..])) else None
  }
}
