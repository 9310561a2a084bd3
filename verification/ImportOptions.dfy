/**
  How the import program quotes the strings of its options, `field_escape` of
  client/drizzleimport.cc.  The user writes backslash escapes; the program has
  to make a literal of them that the server reads in the same sense.
 */
module ImportOptions {
  import opened Rds
  import opened Scanner
  import opened ServerText
  import opened DumpQuoting

  /** What is written for the rest of an option; `odd`: behind an odd number of backslashes. */
  function Escaped(odd: bool, s: bytes): bytes
    decreases |s|
  {
    if s == [] then (if odd then [BACKSLASH] else [])
    else if s[0] == BACKSLASH then [BACKSLASH] + Escaped(!odd, s[1..])
    else (if s[0] == QUOTE && !odd then [QUOTE, QUOTE] else [s[0]]) + Escaped(false, s[1..])
  }

  /** What the user means: escapes as in SQL, quotes for themselves, and a last backslash for itself. */
  function Intended(s: bytes): bytes {
    if s == [] then []
    else if s[0] == BACKSLASH && |s| > 1 then Meaning(s[1]) + Intended(s[2..])
    else [s[0]] + Intended(s[1..])
  }

  lemma EscapedStep(odd: bool, s: bytes, i: nat, to: bytes)
    requires i < |s|
    ensures var c := s[i];
      to + Escaped(odd, s[i..]) ==
        if c == BACKSLASH then to + [c] + Escaped(!odd, s[i + 1..])
        else if c == QUOTE && !odd then to + [c] + [c] + Escaped(false, s[i + 1..])
        else to + [c] + Escaped(false, s[i + 1..])
  {
    assert s[i..][0] == s[i] && s[i..][1..] == s[i + 1..];
    assert [QUOTE, QUOTE] == [QUOTE] + [QUOTE];
  }

  /** `field_escape` */
  method FieldEscape(from: bytes) returns (to: bytes)
    ensures to == Escaped(false, from)
  {
    to := [];
    var i, endBackslashes := 0, false;
    assert from[0..] == from;
    assert Escaped(true, []) == [BACKSLASH] && Escaped(false, []) == [];
    hide Escaped;
    while i < |from|
      invariant i <= |from|
      invariant to + Escaped(endBackslashes, from[i..]) == Escaped(false, from)
    {
      EscapedStep(endBackslashes, from, i, to);
      to := to + [from[i]];
      if from[i] == BACKSLASH {
        endBackslashes := !endBackslashes;
      } else {
        if from[i] == QUOTE && !endBackslashes {
          to := to + [from[i]];
        }
        endBackslashes := false;
      }
      i := i + 1;
    }
    assert from[i..] == [];
    if endBackslashes {
      to := to + [BACKSLASH];
    }
  }

  // ---------------------------------------------------------------- read by the server

  /** What is written for the escape or the character at the front, and how long that is in the option. */
  function Piece(s: bytes): bytes
    requires s != []
  {
    if s[0] == BACKSLASH then [BACKSLASH, if |s| > 1 then s[1] else BACKSLASH]
    else if s[0] == QUOTE then [QUOTE, QUOTE]
    else [s[0]]
  }

  function PieceLength(s: bytes): (k: nat)
    requires s != []
    ensures 1 <= k <= |s|
  {
    if s[0] == BACKSLASH && |s| > 1 then 2 else 1
  }

  lemma EscapedPiece(s: bytes)
    requires s != []
    ensures Escaped(false, s) == Piece(s) + Escaped(false, s[PieceLength(s)..])
  {
    if s[0] == BACKSLASH {
      assert Escaped(false, s) == [BACKSLASH] + Escaped(true, s[1..]);
      if |s| > 1 {
        assert s[1..][1..] == s[2..];
      }
    }
  }

  lemma PieceIsRead(s: bytes, after: bytes)
    requires s != []
    ensures Body(false, QUOTE, Piece(s) + after) == Plus(|Piece(s)|, Body(false, QUOTE, after))
    ensures Unescaped(false, QUOTE, Piece(s) + after) ==
      (if s[0] == BACKSLASH && |s| > 1 then Meaning(s[1]) else [s[0]]) + Unescaped(false, QUOTE, after)
  {
    var p := Piece(s);
    var q := p + after;
    assert q[|p|..] == after && q[0] == p[0] && (|p| == 2 ==> q[1] == p[1]) && MbLength(false, q) == 0;
    hide MbLength;
  }

  lemma {:induction false} OptionBody(s: bytes, rest: bytes)
    requires rest == [] || rest[0] != QUOTE
    ensures Body(false, QUOTE, Escaped(false, s) + ([QUOTE] + rest)) == Some(|Escaped(false, s)|)
    decreases |s|
  {
    var tail := [QUOTE] + rest;
    if s == [] {
      assert Escaped(false, s) + tail == tail;
    } else {
      var more := s[PieceLength(s)..];
      EscapedPiece(s);
      OptionBody(more, rest);
      hide Escaped, Body, Piece;
      PieceIsRead(s, Escaped(false, more) + tail);
      Assoc(Piece(s), Escaped(false, more), tail);
    }
  }

  lemma {:induction false} OptionMeans(s: bytes)
    ensures Unescaped(false, QUOTE, Escaped(false, s)) == Intended(s)
    decreases |s|
  {
    if s != [] {
      var more := s[PieceLength(s)..];
      EscapedPiece(s);
      OptionMeans(more);
      hide Escaped, Unescaped, Piece;
      PieceIsRead(s, Escaped(false, more));
    }
  }

  /** Law: for every option the literal ends at its last quote, and the server reads what the user means. */
  lemma ServerReadsOption(multi: bool, s: bytes, rest: bytes)
    requires rest == [] || rest[0] != QUOTE
    ensures ReadText(multi, QUOTE, Escaped(false, s) + [QUOTE] + rest) == Some((Intended(s), rest))
  {
    var e := Escaped(false, s);
    var q := e + ([QUOTE] + rest);
    Assoc(e, [QUOTE], rest);
    ReadsByBytes(multi, QUOTE, q);
    OptionBody(s, rest);
    OptionMeans(s);
    hide Escaped, Body, Unescaped;
    assert q[..|e|] == e && q[|e| + 1..] == rest;
  }
}
