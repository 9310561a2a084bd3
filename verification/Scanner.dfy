/**
  The statement scanner of the SQL client, `add_line` of client/drizzle.cc, on
  values: how one input line changes the statement buffer and the quote and
  comment state, and which commands and statements it fires.

  The source scans the line in its own buffer: characters that are kept are
  written back over the part already read.  Here the kept characters are
  `pending` and the unread characters are `rest`; module `LineEditor` has the
  version that works in place.
 */
module Scanner {
  import opened Rds

  const BACKSLASH: byte := 92
  const QUOTE: byte := 39
  const DOUBLE_QUOTE: byte := 34
  const BACKTICK: byte := 96
  const SLASH: byte := 47
  const STAR: byte := 42
  const HASH: byte := 35
  const DASH: byte := 45
  const BANG: byte := 33
  const SPACE: byte := 32
  const NEWLINE: byte := 10
  const UPPER_N: byte := 78

  /** Client settings; `quits` are the events whose handler asks the client to stop. */
  datatype Config = Config(
    delimiter: bytes, preserveComments: bool, noBackslashEscapes: bool,
    commands: set<byte>, paramCommands: set<byte>, maxInputLine: nat, quits: set<nat>)

  datatype Event = Statement(text: bytes) | Command(letter: byte) | UnknownCommand(letter: byte)

  datatype Scan = Scan(
    buffer: bytes, pending: bytes, inString: byte, mlComment: bool, ssComment: bool, needSpace: bool, events: seq<Event>)

  /** What one turn of the scanning loop does: go on behind `k` characters, or leave the loop. */
  datatype Move = Go(s: Scan, k: nat) | Break(s: Scan) | Quit(s: Scan) | Overrun

  predicate IsSpace(c: byte) {
    9 <= c <= 13 || c == SPACE
  }

  /** `utf8::sequence_length`: how many bytes the leading byte announces, 0 if it is none. */
  function SequenceLength(c: byte): nat {
    if c < 0x80 then 1 else if 0xC0 <= c < 0xE0 then 2 else if 0xE0 <= c < 0xF0 then 3 else if 0xF0 <= c < 0xF8 then 4 else 0
  }

  /** The character at an offset; the line ends with a NUL. */
  function At(rest: bytes, i: nat): byte {
    if i < |rest| then rest[i] else 0
  }

  /** A line is a C string: it ends at its first NUL. */
  function UpToNul(text: bytes): (line: bytes)
    ensures 0 !in line && line <= text && (|line| < |text| ==> text[|line|] == 0)
  {
    if text == [] || text[0] == 0 then [] else [text[0]] + UpToNul(text[1..])
  }

  lemma {:induction false} UpToNulBoth(a: bytes, b: bytes)
    requires 0 !in a
    ensures UpToNul(a + b) == a + UpToNul(b)
  {
    if a == [] {
      assert a + b == b;
    } else {
      assert (a + b)[1..] == a[1..] + b;
      UpToNulBoth(a[1..], b);
    }
  }

  /** Text without NUL is its own line. */
  lemma UpToNulWhole(a: bytes)
    requires 0 !in a
    ensures UpToNul(a) == a && UpToNul(a + [0]) == a
  {
    UpToNulBoth(a, []);
    UpToNulBoth(a, [0]);
    assert a + [] == a;
  }

  predicate StartsWith(s: bytes, prefix: bytes) {
    |prefix| <= |s| && s[..|prefix|] == prefix
  }

  function Spaces(rest: bytes, from: nat): (to: nat)
    requires from <= |rest|
    ensures from <= to <= |rest| && (to < |rest| ==> !IsSpace(rest[to]))
    decreases |rest| - from
  {
    if from < |rest| && IsSpace(rest[from]) then Spaces(rest, from + 1) else from
  }

  /** The next position from `from` where the text starts with `what`, or the end. */
  function Search(rest: bytes, from: nat, what: bytes): (to: nat)
    requires from <= |rest|
    ensures from <= to <= |rest| && (to < |rest| ==> StartsWith(rest[to..], what))
    decreases |rest| - from
  {
    if from < |rest| && !StartsWith(rest[from..], what) then Search(rest, from + 1, what) else from
  }

  /** Characters kept so far go to the statement buffer. */
  function Flush(s: Scan): Scan {
    s.(buffer := s.buffer + s.pending, pending := [])
  }

  function Fire(s: Scan, e: Event): Scan {
    s.(events := s.events + [e])
  }

  /** The event about to be fired makes the client stop. */
  predicate Stops(conf: Config, s: Scan) {
    |s.events| in conf.quits
  }

  predicate StartsLineComment(rest: bytes) {
    At(rest, 0) == HASH || (At(rest, 0) == DASH && At(rest, 1) == DASH && IsSpace(At(rest, 2)))
  }

  // ---------------------------------------------------------------- the branches of the loop

  /** A multi-byte character is taken as it is. */
  function MultiByte(conf: Config, s: Scan, rest: bytes): Move
    requires rest != []
  {
    var k := SequenceLength(rest[0]);
    if k > |rest| then Overrun
    else Go(if !s.mlComment || conf.preserveComments then s.(pending := s.pending + rest[..k]) else s, k)
  }

  /** Behind a client command with parameters: up to the delimiter, or to the end of a server-side comment. */
  function AfterParameters(conf: Config, s: Scan, rest: bytes): nat
    requires |rest| >= 2
  {
    if s.ssComment then Search(rest, 2, [STAR, SLASH])
    else
      var to := Search(rest, 2, conf.delimiter);
      if to == |rest| then to else to + |conf.delimiter|
  }

  function Backslash(conf: Config, s: Scan, rest: bytes): Move
    requires rest != []
  {
    if |rest| == 1 then Break(s)
    else
      var d := rest[1];
      var kept := s.(pending := s.pending + [BACKSLASH, d]);
      if s.inString != 0 || d == UPPER_N then Go(kept, 2)
      else if d in conf.commands then
        var fired := Fire(Flush(s), Command(d));
        if Stops(conf, s) then Quit(fired)
        else Go(fired, if d in conf.paramCommands then AfterParameters(conf, s, rest) else 2)
      else if Stops(conf, s) then Quit(Fire(s, UnknownCommand(d)))
      else Go(Fire(kept, UnknownCommand(d)), 2)
  }

  function Delimiter(conf: Config, s: Scan, rest: bytes): Move
    requires StartsWith(rest, conf.delimiter)
  {
    var k := |conf.delimiter|;
    var j := if conf.preserveComments then Spaces(rest, k) else k;
    var flushed := Flush(s.(pending := s.pending + rest[k..j]));
    var comment := conf.preserveComments && StartsLineComment(rest[j..]);
    var whole := if comment then flushed.(buffer := flushed.buffer + rest[j..]) else flushed;
    var fired := Fire(whole, Statement(whole.buffer));
    if Stops(conf, s) then Quit(fired) else Go(fired.(buffer := []), if comment then |rest| else j)
  }

  function LineComment(conf: Config, s: Scan, rest: bytes): Move {
    var flushed := Flush(s);
    if !conf.preserveComments then Break(flushed)
    else
      var whole := flushed.(buffer := flushed.buffer + rest);
      if flushed.buffer == [] then Break(whole)
      else if Stops(conf, s) then Quit(Fire(whole, Statement(whole.buffer)))
      else Break(Fire(whole, Statement(whole.buffer)).(buffer := []))
  }

  function OpenComment(conf: Config, s: Scan): Scan {
    Flush((if conf.preserveComments then s.(pending := s.pending + [SLASH, STAR]) else s).(mlComment := true))
  }

  function CloseComment(conf: Config, s: Scan): Scan {
    Flush((if conf.preserveComments then s.(pending := s.pending + [STAR, SLASH]) else s).(mlComment := false, needSpace := true))
  }

  function Plain(conf: Config, s: Scan, rest: bytes): Scan
    requires rest != []
  {
    var c := rest[0];
    var ss :=
      if s.inString == 0 && c == SLASH && At(rest, 1) == STAR && At(rest, 2) == BANG then true
      else if s.inString == 0 && s.ssComment && c == STAR && At(rest, 1) == SLASH then false
      else s.ssComment;
    var inString :=
      if c == s.inString then 0
      else if !s.mlComment && s.inString == 0 && (c == QUOTE || c == DOUBLE_QUOTE || c == BACKTICK) then c
      else s.inString;
    var s1 := s.(ssComment := ss, inString := inString);
    if !s.mlComment || conf.preserveComments then
      s1.(pending := s.pending + (if s.needSpace && !IsSpace(c) then [SPACE] else []) + [c], needSpace := false)
    else s1
  }

  /** The last four branches. */
  function CommentOrPlain(conf: Config, s: Scan, rest: bytes): Move
    requires rest != []
  {
    var c := rest[0];
    if !s.mlComment && s.inString == 0 && StartsLineComment(rest) then LineComment(conf, s, rest)
    else if s.inString == 0 && c == SLASH && At(rest, 1) == STAR && At(rest, 2) != BANG then Go(OpenComment(conf, s), 2)
    else if s.mlComment && !s.ssComment && c == STAR && At(rest, 1) == SLASH then Go(CloseComment(conf, s), 2)
    else Go(Plain(conf, s, rest), 1)
  }

  /** One turn of the loop. */
  function Turn(conf: Config, s: Scan, rest: bytes): Move
    requires rest != []
  {
    var c := rest[0];
    if !conf.preserveComments && IsSpace(c) && s.pending == [] && s.buffer == [] then Go(s, 1)
    else if c >= 0x80 && SequenceLength(c) != 0 then MultiByte(conf, s, rest)
    else if !s.mlComment && c == BACKSLASH && !(s.inString != 0 && conf.noBackslashEscapes) then Backslash(conf, s, rest)
    else if !s.mlComment && s.inString == 0 && StartsWith(rest, conf.delimiter) then Delimiter(conf, s, rest)
    else CommentOrPlain(conf, s, rest)
  }

  lemma TurnAdvances(conf: Config, s: Scan, rest: bytes)
    requires rest != [] && conf.delimiter != []
    ensures var m := Turn(conf, s, rest); m.Go? ==> 1 <= m.k <= |rest|
  {
  }

  // ---------------------------------------------------------------- a whole line

  /** The loop, from a state with `rest` unread; it ends in `Break`, `Quit` or `Overrun`. */
  function Scanned(conf: Config, s: Scan, rest: bytes): Move
    requires conf.delimiter != []
    decreases |rest|
  {
    if rest == [] then Break(s)
    else
      var m := Turn(conf, s, rest);
      TurnAdvances(conf, s, rest);
      if m.Go? then Scanned(conf, m.s, rest[m.k..]) else m
  }

  /** What is kept between lines. */
  datatype Between = Between(buffer: bytes, inString: byte, mlComment: bool, events: seq<Event>)

  datatype Added = Added(quit: bool, state: Between) | ReadsPastTheEnd

  function Begin(b: Between): Scan {
    Scan(b.buffer, [], b.inString, b.mlComment, false, false, b.events)
  }

  function Left(s: Scan): Between {
    Between(s.buffer, s.inString, s.mlComment, s.events)
  }

  /** The end of the line: a newline, and what was kept goes to the buffer. */
  function Finish(conf: Config, s: Scan): Added {
    if s.pending == [] && s.buffer == [] then Added(false, Left(s))
    else if |s.buffer| + |s.pending| + 1 > conf.maxInputLine then Added(true, Left(s))
    else Added(false, Left(if !s.mlComment || conf.preserveComments then s.(buffer := s.buffer + s.pending + [NEWLINE]) else s))
  }

  /** How the line ends after its loop. */
  function Outcome(conf: Config, m: Move): Added {
    match m
    case Quit(s) => Added(true, Left(s))
    case Overrun => ReadsPastTheEnd
    case Break(s) => Finish(conf, s)
    case Go(s, k) => Finish(conf, s)
  }

  /** `add_line` on the C string in `text` */
  function AddLine(conf: Config, b: Between, text: bytes): Added
    requires conf.delimiter != []
  {
    var line := UpToNul(text);
    if line == [] && b.buffer == [] then Added(false, b) else Outcome(conf, Scanned(conf, Begin(b), line))
  }

  // ---------------------------------------------------------------- quotes and comments

  /** At most one of quote state and comment state is set, and the quote state is a quote. */
  predicate Apart(s: Scan) {
    (s.inString == 0 || (s.inString in {QUOTE, DOUBLE_QUOTE, BACKTICK} && !s.mlComment))
  }

  lemma TurnKeepsApart(conf: Config, s: Scan, rest: bytes)
    requires rest != [] && Apart(s)
    ensures var m := Turn(conf, s, rest); !m.Overrun? ==> Apart(m.s)
  {
  }

  lemma {:induction false} ScannedKeepsApart(conf: Config, s: Scan, rest: bytes)
    requires conf.delimiter != [] && Apart(s)
    ensures var m := Scanned(conf, s, rest); !m.Overrun? ==> Apart(m.s)
    decreases |rest|
  {
    if rest != [] {
      TurnAdvances(conf, s, rest);
      TurnKeepsApart(conf, s, rest);
      hide Turn, Apart;
      var m := Turn(conf, s, rest);
      if m.Go? {
        ScannedKeepsApart(conf, m.s, rest[m.k..]);
      }
    }
  }

  /** Law: after any number of lines, quote state and comment state are never both set. */
  lemma {:induction false} LinesKeepApart(conf: Config, b: Between, lines: seq<bytes>)
    requires conf.delimiter != [] && Apart(Begin(b))
    ensures var a := AddLines(conf, b, lines); a.Added? ==> Apart(Begin(a.state))
    decreases |lines|
  {
    if lines != [] {
      hide Scanned, Apart, UpToNul;
      ScannedKeepsApart(conf, Begin(b), UpToNul(lines[0]));
      ApartBetweenLines(conf, b, lines[0]);
      var a := AddLine(conf, b, lines[0]);
      if a.Added? && !a.quit {
        LinesKeepApart(conf, a.state, lines[1..]);
      }
    }
  }

  lemma ApartBetweenLines(conf: Config, b: Between, text: bytes)
    requires conf.delimiter != [] && Apart(Begin(b))
    requires var m := Scanned(conf, Begin(b), UpToNul(text)); !m.Overrun? ==> Apart(m.s)
    ensures var a := AddLine(conf, b, text); a.Added? ==> Apart(Begin(a.state))
  {
    hide Scanned, UpToNul;
  }

  function AddLines(conf: Config, b: Between, lines: seq<bytes>): Added
    requires conf.delimiter != []
    decreases |lines|
  {
    if lines == [] then Added(false, b)
    else
      var a := AddLine(conf, b, lines[0]);
      if a.Added? && !a.quit then AddLines(conf, a.state, lines[1..]) else a
  }

  // ---------------------------------------------------------------- reading past the end

  /** Every leading byte is followed by as many bytes as it announces. */
  predicate NoTruncatedLead(s: bytes) {
    forall p :: 0 <= p < |s| ==> p + SequenceLength(s[p]) <= |s|
  }

  lemma {:induction false} WholeCharactersNeverOverrun(conf: Config, s: Scan, rest: bytes)
    requires conf.delimiter != [] && NoTruncatedLead(rest)
    ensures !Scanned(conf, s, rest).Overrun?
    decreases |rest|
  {
    if rest != [] {
      TurnAdvances(conf, s, rest);
      var m := Turn(conf, s, rest);
      assert 0 + SequenceLength(rest[0]) <= |rest|;
      assert !m.Overrun?;
      hide Turn;
      if m.Go? {
        assert forall p :: 0 <= p < |rest| - m.k ==> rest[m.k..][p] == rest[p + m.k];
        WholeCharactersNeverOverrun(conf, m.s, rest[m.k..]);
      }
    }
  }

  /** Law: a line without truncated characters is never read past its end. */
  lemma LinesEndAtTheirEnd(conf: Config, b: Between, text: bytes)
    requires conf.delimiter != [] && NoTruncatedLead(UpToNul(text))
    ensures AddLine(conf, b, text).Added?
  {
    hide Scanned, UpToNul;
    WholeCharactersNeverOverrun(conf, Begin(b), UpToNul(text));
  }

  /** A single leading byte of a two-byte character at the end of a line makes the scanner read past the end. */
  lemma TruncatedLineOverruns(conf: Config, b: Between)
    requires conf.delimiter != []
    ensures AddLine(conf, b, [0xC3]) == ReadsPastTheEnd
  {
    UpToNulWhole([0xC3]);
    assert Turn(conf, Begin(b), [0xC3]) == Overrun;
  }

  /** A turn of the loop starts at position `p`. */
  predicate TurnAt(conf: Config, s: Scan, rest: bytes, p: nat): (yes: bool)
    requires conf.delimiter != []
    ensures yes ==> p < |rest|
    decreases |rest|
  {
    rest != [] && (p == 0 ||
      var m := Turn(conf, s, rest);
      TurnAdvances(conf, s, rest);
      m.Go? && m.k <= p && TurnAt(conf, m.s, rest[m.k..], p - m.k))
  }

  /** The leading byte at position `p` announces more bytes than there are. */
  predicate TruncatedAt(rest: bytes, p: nat) {
    p < |rest| && p + SequenceLength(rest[p]) > |rest|
  }

  lemma TurnOverruns(conf: Config, s: Scan, rest: bytes)
    requires rest != []
    ensures Turn(conf, s, rest).Overrun? <==> TruncatedAt(rest, 0)
  {
  }

  /** The loop takes a turn at a character that is cut off by the end. */
  ghost predicate CutAtATurn(conf: Config, s: Scan, rest: bytes)
    requires conf.delimiter != []
  {
    exists p: nat :: TurnAt(conf, s, rest, p) && TruncatedAt(rest, p)
  }

  lemma {:induction false} OverrunsAtATurn(conf: Config, s: Scan, rest: bytes)
    requires conf.delimiter != [] && Scanned(conf, s, rest).Overrun?
    ensures CutAtATurn(conf, s, rest)
    decreases |rest|
  {
    TurnAdvances(conf, s, rest);
    TurnOverruns(conf, s, rest);
    hide Turn;
    var m := Turn(conf, s, rest);
    if m.Go? {
      OverrunsAtATurn(conf, m.s, rest[m.k..]);
      var p: nat :| TurnAt(conf, m.s, rest[m.k..], p) && TruncatedAt(rest[m.k..], p);
      assert rest[m.k..][p] == rest[p + m.k];
      assert TurnAt(conf, s, rest, p + m.k) && TruncatedAt(rest, p + m.k);
    } else {
      assert TurnAt(conf, s, rest, 0) && TruncatedAt(rest, 0);
    }
  }

  lemma {:induction false} TruncatedTurnOverruns(conf: Config, s: Scan, rest: bytes, p: nat)
    requires conf.delimiter != [] && TurnAt(conf, s, rest, p) && TruncatedAt(rest, p)
    ensures Scanned(conf, s, rest).Overrun?
    decreases |rest|
  {
    TurnAdvances(conf, s, rest);
    TurnOverruns(conf, s, rest);
    hide Turn;
    if p > 0 {
      var m := Turn(conf, s, rest);
      assert rest[m.k..][p - m.k] == rest[p];
      TruncatedTurnOverruns(conf, m.s, rest[m.k..], p - m.k);
    }
  }

  lemma CutTurnOverruns(conf: Config, s: Scan, rest: bytes)
    requires conf.delimiter != [] && CutAtATurn(conf, s, rest)
    ensures Scanned(conf, s, rest).Overrun? && rest != []
  {
    hide Scanned, TurnAt;
    var p: nat :| TurnAt(conf, s, rest, p) && TruncatedAt(rest, p);
    TruncatedTurnOverruns(conf, s, rest, p);
  }

  /** Law: a line is read past its NUL exactly if the loop takes a turn at a character that is cut off by the NUL. */
  lemma OverrunExactly(conf: Config, b: Between, text: bytes)
    requires conf.delimiter != []
    ensures AddLine(conf, b, text) == ReadsPastTheEnd <==> CutAtATurn(conf, Begin(b), UpToNul(text))
  {
    hide Scanned, CutAtATurn, UpToNul;
    var line := UpToNul(text);
    if Scanned(conf, Begin(b), line).Overrun? {
      OverrunsAtATurn(conf, Begin(b), line);
    }
    if CutAtATurn(conf, Begin(b), line) {
      CutTurnOverruns(conf, Begin(b), line);
    }
    ScannedNothing(conf, Begin(b));
  }

  lemma ScannedNothing(conf: Config, s: Scan)
    requires conf.delimiter != []
    ensures Scanned(conf, s, []) == Break(s)
  {
  }

  /** Law: whole characters and one that is cut off: read past the NUL exactly if the scan of the whole ones reaches its end. */
  lemma CutLineOverruns(conf: Config, b: Between, whole: bytes, cut: bytes)
    requires conf.delimiter != [] && NoTruncatedLead(whole) && 0 !in whole
    requires cut != [] && |cut| < SequenceLength(cut[0]) && forall i :: 1 <= i < |cut| ==> SequenceLength(cut[i]) == 0
    ensures AddLine(conf, b, whole + cut) == ReadsPastTheEnd <==> TurnAt(conf, Begin(b), whole + cut, |whole|)
  {
    CutHasNoNul(cut);
    UpToNulWhole(whole + cut);
    hide AddLine, TurnAt, TruncatedAt, NoTruncatedLead, SequenceLength, UpToNul;
    OnlyCutIsTruncated(whole, cut);
    OverrunExactly(conf, b, whole + cut);
    assert TruncatedAt(whole + cut, |whole|);
  }

  lemma CutHasNoNul(cut: bytes)
    requires cut != [] && |cut| < SequenceLength(cut[0]) && forall i :: 1 <= i < |cut| ==> SequenceLength(cut[i]) == 0
    ensures 0 !in cut
  {
  }

  lemma OnlyCutIsTruncated(whole: bytes, cut: bytes)
    requires NoTruncatedLead(whole)
    requires cut != [] && |cut| < SequenceLength(cut[0]) && forall i :: 1 <= i < |cut| ==> SequenceLength(cut[i]) == 0
    ensures forall p: nat :: TruncatedAt(whole + cut, p) <==> p == |whole|
  {
    hide SequenceLength;
    var line := whole + cut;
    forall p: nat ensures TruncatedAt(line, p) <==> p == |whole| {
      if p < |line| {
        assert line[p] == if p < |whole| then whole[p] else cut[p - |whole|];
      }
    }
  }

  // ---------------------------------------------------------------- line comments

  /** The state in which the loop takes its turn at position `p`. */
  function StateAt(conf: Config, s: Scan, rest: bytes, p: nat): Scan
    requires conf.delimiter != [] && TurnAt(conf, s, rest, p)
    decreases |rest|
  {
    if p == 0 then s
    else
      var m := Turn(conf, s, rest);
      TurnAdvances(conf, s, rest);
      StateAt(conf, m.s, rest[m.k..], p - m.k)
  }

  lemma {:induction false} ScannedAt(conf: Config, s: Scan, rest: bytes, p: nat)
    requires conf.delimiter != [] && TurnAt(conf, s, rest, p)
    ensures p < |rest| && Scanned(conf, s, rest) == Scanned(conf, StateAt(conf, s, rest, p), rest[p..])
    decreases |rest|
  {
    if p > 0 {
      TurnAdvances(conf, s, rest);
      hide Turn;
      var m := Turn(conf, s, rest);
      ScannedAt(conf, m.s, rest[m.k..], p - m.k);
      assert rest[m.k..][p - m.k..] == rest[p..];
    } else {
      assert rest[0..] == rest;
    }
  }

  /** The loop takes `rest` for a line comment. */
  predicate TakenForComment(conf: Config, s: Scan, rest: bytes) {
    !s.mlComment && s.inString == 0 && StartsLineComment(rest) && !StartsWith(rest, conf.delimiter)
  }

  lemma CommentTurn(conf: Config, s: Scan, rest: bytes)
    requires conf.delimiter != [] && rest != [] && TakenForComment(conf, s, rest)
    ensures Turn(conf, s, rest) == LineComment(conf, s, rest) == Scanned(conf, s, rest)
  {
  }

  /** What stands before a line comment and has not been sent. */
  function Unsent(s: Scan): bytes {
    s.buffer + s.pending
  }

  /** `a` is a line whose comment was reached in state `s`. */
  predicate CommentHandled(conf: Config, s: Scan, comment: bytes, a: Added) {
    var sent := s.events + [Statement(Unsent(s) + comment)];
    && a.Added?
    && (a.state.events == sent <==> conf.preserveComments && Unsent(s) != [])
    && (a.state.events == sent && !Stops(conf, s) ==> a == Added(false, Between([], 0, false, sent)))
    && (a.state.events != sent ==> a.state.events == s.events)
    && (!conf.preserveComments ==> a == Finish(conf, Flush(s)))
    && (conf.preserveComments && Unsent(s) == [] ==>
          a == if |comment| + 1 > conf.maxInputLine then Added(true, Between(comment, 0, false, s.events))
               else Added(false, Between(comment + [NEWLINE], 0, false, s.events)))
  }

  lemma CommentOutcome(conf: Config, s: Scan, comment: bytes)
    requires comment != [] && s.inString == 0 && !s.mlComment
    ensures CommentHandled(conf, s, comment, Outcome(conf, LineComment(conf, s, comment)))
  {
    assert |s.events + [Statement(Unsent(s) + comment)]| != |s.events|;
    assert [] + comment == comment && comment + [] + [NEWLINE] == comment + [NEWLINE];
  }

  /**
    Law: a line comment, wherever the loop reaches it, is sent at once exactly if
    comments are preserved and something unsent stands before it; the statement is
    that text and the comment.  A comment by itself is kept for the next line.
   */
  lemma CommentIsSentExactly(conf: Config, b: Between, text: bytes, p: nat)
    requires conf.delimiter != [] && TurnAt(conf, Begin(b), UpToNul(text), p)
    requires TakenForComment(conf, StateAt(conf, Begin(b), UpToNul(text), p), UpToNul(text)[p..])
    ensures var line := UpToNul(text);
      CommentHandled(conf, StateAt(conf, Begin(b), line, p), line[p..], AddLine(conf, b, text))
  {
    var line := UpToNul(text);
    var s, comment := StateAt(conf, Begin(b), line, p), line[p..];
    ScannedAt(conf, Begin(b), line, p);
    CommentTurn(conf, s, comment);
    CommentOutcome(conf, s, comment);
    hide UpToNul, StateAt, TurnAt, Scanned, Turn, StartsLineComment, StartsWith, CommentHandled, Outcome, LineComment;
  }

  /** The shortest such line: a comment sign alone fires nothing and stays in the buffer. */
  lemma LoneCommentStays(conf: Config, events: seq<Event>)
    requires conf.delimiter != [] && conf.delimiter[0] != HASH && conf.preserveComments && conf.maxInputLine >= 2
    ensures AddLine(conf, Between([], 0, false, events), [HASH]) == Added(false, Between([HASH, NEWLINE], 0, false, events))
  {
    var b := Between([], 0, false, events);
    UpToNulWhole([HASH]);
    assert [HASH][0..] == [HASH] && StateAt(conf, Begin(b), [HASH], 0) == Begin(b);
    assert !StartsWith([HASH], conf.delimiter);
    CommentIsSentExactly(conf, b, [HASH], 0);
  }

  // ---------------------------------------------------------------- quoted literals

  lemma ScannedTurn(conf: Config, s: Scan, rest: bytes, s': Scan, k: nat)
    requires conf.delimiter != [] && rest != [] && Turn(conf, s, rest) == Go(s', k)
    ensures k <= |rest| && Scanned(conf, s, rest) == Scanned(conf, s', rest[k..])
  {
    TurnAdvances(conf, s, rest);
    hide Turn;
  }

  /** Inside a quoted literal that has been copied at least up to its opening quote. */
  predicate InLiteral(conf: Config, s: Scan, quote: byte) {
    s.inString == quote && quote in {QUOTE, DOUBLE_QUOTE, BACKTICK} && !s.mlComment && s.pending != [] && !s.needSpace
  }

  /** A byte that stands for itself inside a literal, whatever follows. */
  predicate Inert(conf: Config, c: byte, quote: byte) {
    (c != BACKSLASH || conf.noBackslashEscapes) && c != quote && (c < 0x80 || SequenceLength(c) == 0)
  }

  lemma InertTurn(conf: Config, s: Scan, quote: byte, rest: bytes)
    requires conf.delimiter != [] && InLiteral(conf, s, quote) && rest != [] && Inert(conf, rest[0], quote)
    ensures Turn(conf, s, rest) == Go(s.(pending := s.pending + [rest[0]]), 1)
  {
  }

  lemma PairTurn(conf: Config, s: Scan, quote: byte, rest: bytes)
    requires conf.delimiter != [] && InLiteral(conf, s, quote) && !conf.noBackslashEscapes && |rest| >= 2 && rest[0] == BACKSLASH
    ensures Turn(conf, s, rest) == Go(s.(pending := s.pending + rest[..2]), 2)
  {
    assert rest[..2] == [BACKSLASH, rest[1]];
  }

  lemma CharacterTurn(conf: Config, s: Scan, quote: byte, rest: bytes, k: nat)
    requires conf.delimiter != [] && InLiteral(conf, s, quote) && rest != [] && rest[0] >= 0x80
    requires k == SequenceLength(rest[0]) != 0 && k <= |rest|
    ensures Turn(conf, s, rest) == Go(s.(pending := s.pending + rest[..k]), k)
  {
  }

  lemma OpeningTurn(conf: Config, s: Scan, quote: byte, rest: bytes)
    requires conf.delimiter != [] && s.inString == 0 && !s.mlComment && quote in {QUOTE, DOUBLE_QUOTE, BACKTICK}
    requires rest != [] && rest[0] == quote && conf.delimiter[0] != quote
    ensures Turn(conf, s, rest) == Go(s.(
      inString := quote, needSpace := false,
      pending := s.pending + (if s.needSpace then [SPACE] else []) + [quote]), 1)
  {
  }

  lemma ClosingTurn(conf: Config, s: Scan, quote: byte, rest: bytes)
    requires conf.delimiter != [] && InLiteral(conf, s, quote) && rest != [] && rest[0] == quote
    ensures Turn(conf, s, rest) == Go(s.(inString := 0, pending := s.pending + [quote]), 1)
  {
  }
}
