/**
  `add_line` of client/drizzle.cc in the form of the source: one array holds the
  line and its terminating NUL, `pos` reads it, and `out` writes the characters
  that are kept back into the same array.  The editor is proved to do what the
  scanner of module `Scanner` says; that it never overwrites a character it has
  not read, never reads past the NUL and has room for the newline are conditions
  of the array accesses below.
 */
module LineEditor {
  import opened Rds
  import opened Scanner

  datatype Verdict = Continue | Leave | QuitNow

  class Editor {
    const conf: Config
    var buffer: bytes
    var inString: byte
    var mlComment: bool
    var events: seq<Event>

    // the variables of one call
    var line: array<byte>
    var length: nat
    var pos: nat
    var out: nat
    var ssComment: bool
    var needSpace: bool

    ghost predicate Valid()
      reads this, line
    {
      && conf.delimiter != []
      && length + 1 == line.Length && line[length] == 0
      && Room() <= pos <= length
    }

    /** Characters kept, and the space that may have to be put in front of the next one. */
    ghost function Room(): nat
      reads this
    {
      out + if needSpace then 1 else 0
    }

    function Rest(): bytes
      reads this, line
      requires pos <= length < line.Length
    {
      line[pos..length]
    }

    function State(): Scan
      reads this, line
      requires out <= line.Length
    {
      Scan(buffer, line[..out], inString, mlComment, ssComment, needSpace, events)
    }

    function BetweenLines(): Between
      reads this
    {
      Between(buffer, inString, mlComment, events)
    }

    constructor (conf: Config)
      ensures this.conf == conf && BetweenLines() == Between([], 0, false, [])
    {
      this.conf := conf;
      buffer, inString, mlComment, events := [], 0, false, [];
      line := new byte[1](i => 0);
      length, pos, out, ssComment, needSpace := 0, 0, 0, false, false;
    }

    /** `*out++= c` behind the character just read. */
    method Keep(c: byte)
      requires conf.delimiter != [] && length + 1 == line.Length && line[length] == 0 && out < pos <= length
      modifies this`out, line
      ensures out == old(out) + 1 && line[length] == 0
      ensures line[..out] == old(line[..out]) + [c] && line[pos..length] == old(line[pos..length])
    {
      line[out] := c;
      out := out + 1;
    }

    /** Flush previously accepted characters. */
    method Flushed()
      requires out <= line.Length
      modifies this`buffer, this`out
      ensures out == 0 && State() == Flush(old(State()))
    {
      if out != 0 {
        buffer := buffer + line[..out];
        out := 0;
      }
      assert line[..0] == [];
    }

    /** `*out++= *pos++` */
    method KeepNext()
      requires Valid() && pos < length
      modifies this`pos, this`out, line
      ensures Valid() && pos == old(pos) + 1 && Rest() == old(Rest()[1..])
      ensures State() == old(State()).(pending := old(State().pending + [Rest()[0]]))
    {
      ghost var rest := Rest();
      var c := line[pos];
      pos := pos + 1;
      assert Rest() == rest[1..] && c == rest[0];
      Keep(c);
    }

    lemma OneMore(pending: bytes, rest: bytes, i: nat)
      requires i < |rest|
      ensures pending + rest[..i] + [rest[i]] == pending + rest[..i + 1]
      ensures rest[i..][0] == rest[i] && rest[i..][1..] == rest[i + 1..]
    {
    }

    /** Since state `was`, with `rest` unread at `from`, the first `i` characters have been copied. */
    ghost predicate Copied(was: Scan, rest: bytes, from: nat, i: nat)
      reads this, line
    {
      Valid() && i <= |rest| && pos == from + i && Rest() == rest[i..] && State() == was.(pending := was.pending + rest[..i])
    }

    method CopyOne(ghost was: Scan, ghost rest: bytes, ghost from: nat, ghost i: nat)
      requires Copied(was, rest, from, i) && i < |rest|
      modifies this`pos, this`out, line
      ensures Copied(was, rest, from, i + 1) && pos == old(pos) + 1
    {
      OneMore(was.pending, rest, i);
      hide Valid;
      KeepNext();
    }

    lemma NothingCopied()
      requires Valid()
      ensures Copied(State(), Rest(), pos, 0)
    {
      var was, rest := State(), Rest();
      assert rest[0..] == rest && was.pending + rest[..0] == was.pending;
    }

    /** What the next character to copy is. */
    lemma CopiedNext(was: Scan, rest: bytes, from: nat, i: nat)
      requires Copied(was, rest, from, i)
      ensures pos <= length < line.Length && length == from + |rest| && pos == from + i && (i < |rest| ==> line[pos] == rest[i])
    {
      assert i < |rest| ==> rest[i..][0] == rest[i];
    }

    /** The editor has taken the step `m`, made with `rest` unread at `from`. */
    ghost predicate Took(m: Move, verdict: Verdict, from: nat, rest: bytes)
      reads this, line
    {
      match m
      case Go(s, k) => verdict == Continue && Valid() && State() == s && k <= |rest| && pos == from + k && Rest() == rest[k..]
      case Break(s) => verdict == Leave && Valid() && State() == s
      case Quit(s) => verdict == QuitNow && BetweenLines() == Left(s)
      case Overrun => false
    }

    /** The characters of a multi-byte character are copied one by one. */
    method CopyCharacter(k: nat)
      requires Valid() && pos + k <= length
      modifies this`pos, this`out, line
      ensures var s, rest := old(State()), old(Rest());
        Took(Go(s.(pending := s.pending + rest[..k]), k), Continue, old(pos), rest)
    {
      ghost var was, rest := State(), Rest();
      var i := 0;
      NothingCopied();
      while i < k
        invariant 0 <= i <= k && Copied(was, rest, old(pos), i)
      {
        hide Copied;
        CopyOne(was, rest, old(pos), i);
        i := i + 1;
      }
    }

    method SkipCharacter(k: nat)
      requires Valid() && pos + k <= length
      modifies this`pos
      ensures Took(Go(old(State()), k), Continue, old(pos), old(Rest()))
    {
      ghost var rest := Rest();
      pos := pos + k;
      assert Rest() == rest[k..];
    }

    lemma MultiByteIs(s: Scan, rest: bytes, k: nat)
      requires rest != [] && k == SequenceLength(rest[0]) <= |rest|
      ensures MultiByte(conf, s, rest) == Go(if !s.mlComment || conf.preserveComments then s.(pending := s.pending + rest[..k]) else s, k)
    {
    }

    method MultiByteTurn() returns (verdict: Verdict)
      requires Valid() && pos < length && SequenceLength(line[pos]) <= length - pos
      modifies this, line
      ensures line == old(line) && length == old(length)
      ensures Took(MultiByte(conf, old(State()), old(Rest())), verdict, old(pos), old(Rest()))
    {
      var k := SequenceLength(line[pos]);
      assert Rest()[0] == line[pos];
      MultiByteIs(State(), Rest(), k);
      hide Took, Copied, MultiByte, SequenceLength, Valid;
      if !mlComment || conf.preserveComments {
        CopyCharacter(k);
      } else {
        SkipCharacter(k);
      }
      return Continue;
    }

    /** The loops that skip the parameters of a command. */
    method SkipTo(what: bytes) returns (to: nat)
      requires Valid() && pos + 2 <= length && 0 !in Rest()
      ensures to == pos + Search(Rest(), 2, what)
    {
      hide StartsWith;
      ghost var rest := Rest();
      to := pos + 2;
      while line[to] != 0 && !StartsWith(line[to..length], what)
        invariant pos + 2 <= to <= length
        invariant Search(rest, 2, what) == Search(rest, to - pos, what)
        decreases length - to
      {
        assert rest[to - pos..] == line[to..length];
        to := to + 1;
      }
      assert rest[to - pos..] == line[to..length];
      assert to < length ==> line[to] == rest[to - pos];
    }

    method BackslashTurn() returns (verdict: Verdict)
      requires Valid() && pos < length && line[pos] == BACKSLASH && 0 !in Rest()
      modifies this, line
      ensures line == old(line) && length == old(length)
      ensures Took(Backslash(conf, old(State()), old(Rest())), verdict, old(pos), old(Rest()))
    {
      ghost var was, rest := State(), Rest();
      var d := line[pos + 1];
      assert d == At(rest, 1);
      if d == 0 {
        return Leave;
      }
      if inString != 0 || d == UPPER_N {
        KeepPair(d);
        return Continue;
      }
      if d in conf.commands {
        verdict := CommandTurn(d);
        return;
      }
      if |events| in conf.quits {
        events := events + [UnknownCommand(d)];
        return QuitNow;
      }
      events := events + [UnknownCommand(d)];
      KeepPair(d);
      return Continue;
    }

    method KeepPair(d: byte)
      requires Valid() && pos + 2 <= length
      modifies this`pos, this`out, line
      ensures Valid() && pos == old(pos) + 2 && Rest() == old(Rest()[2..])
      ensures State() == old(State()).(pending := old(State().pending) + [BACKSLASH, d])
    {
      ghost var rest := Rest();
      pos := pos + 2;
      assert Rest() == rest[2..];
      Keep(BACKSLASH);
      Keep(d);
    }

    method CommandTurn(d: byte) returns (verdict: Verdict)
      requires Valid() && pos + 2 <= length && d in conf.commands && d == line[pos + 1] && d != UPPER_N && inString == 0 && 0 !in Rest()
      modifies this
      ensures line == old(line) && length == old(length)
      ensures Took(Backslash(conf, old(State()), old(Rest())), verdict, old(pos), old(Rest()))
    {
      hide Search, StartsWith;
      ghost var rest := Rest();
      assert d == rest[1];
      var stop := |events| in conf.quits;
      Flushed();
      events := events + [Command(d)];
      if stop {
        return QuitNow;
      }
      var next := pos + 2;
      if d in conf.paramCommands {
        next := SkipParameters();
      }
      pos := next;
      hide AfterParameters;
      return Continue;
    }

    /** Behind the parameters of a command. */
    method SkipParameters() returns (next: nat)
      requires Valid() && pos + 2 <= length && 0 !in Rest()
      ensures next == pos + AfterParameters(conf, State(), Rest()) && next <= length
    {
      if ssComment {
        next := SkipTo([STAR, SLASH]);
      } else {
        next := SkipTo(conf.delimiter);
        if line[next] != 0 {
          next := next + |conf.delimiter|;
        }
      }
    }

    /** `while (isspace(*pos)) *out++= *pos++` */
    method CopySpaces()
      requires Valid()
      modifies this`pos, this`out, line
      ensures Valid() && pos == old(pos) + old(Spaces(Rest(), 0)) && Rest() == old(Rest()[Spaces(Rest(), 0)..])
      ensures State() == old(State()).(pending := old(State().pending + Rest()[..Spaces(Rest(), 0)]))
    {
      ghost var was, rest, i := State(), Rest(), 0;
      NothingCopied();
      while IsSpace(line[pos])
        invariant Copied(was, rest, old(pos), i) && Spaces(rest, 0) == Spaces(rest, i)
        decreases length - pos
      {
        CopiedNext(was, rest, old(pos), i);
        assert Spaces(rest, i) == Spaces(rest, i + 1);
        hide Copied, Spaces;
        CopyOne(was, rest, old(pos), i);
        i := i + 1;
      }
      CopiedNext(was, rest, old(pos), i);
    }

    /** A single-line comment starts at `pos`; the NUL ends the look-ahead. */
    method AtLineComment() returns (yes: bool)
      requires Valid()
      ensures yes == StartsLineComment(Rest())
    {
      yes := line[pos] == HASH || (line[pos] == DASH && line[pos + 1] == DASH && IsSpace(line[pos + 2]));
      assert At(Rest(), 0) == line[pos];
    }

    /** Behind the delimiter, and with preserved comments behind the spaces that follow it. */
    method PassDelimiter()
      requires Valid() && StartsWith(Rest(), conf.delimiter)
      modifies this`pos, this`out, line
      ensures Valid()
      ensures var k := |conf.delimiter|;
        var j := if conf.preserveComments then Spaces(old(Rest()), k) else k;
        pos == old(pos) + j && Rest() == old(Rest())[j..] && State() == old(State()).(pending := old(State()).pending + old(Rest())[k..j])
    {
      ghost var was, rest, k := State(), Rest(), |conf.delimiter|;
      pos := pos + |conf.delimiter|;
      assert Rest() == rest[k..];
      if conf.preserveComments {
        SpacesFrom(rest, k);
        hide Spaces, StartsWith;
        CopySpaces();
      } else {
        assert rest[k..k] == [] && was.pending + [] == was.pending;
      }
    }

    /** Add a trailing comment to the statement in the buffer, fire it and empty the buffer. */
    method FireStatement() returns (verdict: Verdict)
      requires Valid() && out == 0
      modifies this`buffer, this`pos, this`events
      ensures var s, rest := old(State()), old(Rest());
        var comment := conf.preserveComments && StartsLineComment(rest);
        var whole := if comment then s.(buffer := s.buffer + rest) else s;
        var fired := Fire(whole, Statement(whole.buffer));
        Took(if Stops(conf, s) then Quit(fired) else Go(fired.(buffer := []), if comment then |rest| else 0), verdict, old(pos), rest)
    {
      hide StartsLineComment;
      var comment := AtLineComment();
      if conf.preserveComments && comment {
        buffer := buffer + line[pos..length];
        pos := length;
      }
      var stop := |events| in conf.quits;
      events := events + [Statement(buffer)];
      if stop {
        return QuitNow;
      }
      buffer := [];
      return Continue;
    }

    method DelimiterTurn() returns (verdict: Verdict)
      requires Valid() && StartsWith(Rest(), conf.delimiter)
      modifies this, line
      ensures line == old(line) && length == old(length)
      ensures Took(Delimiter(conf, old(State()), old(Rest())), verdict, old(pos), old(Rest()))
    {
      hide Spaces, StartsWith, StartsLineComment;
      PassDelimiter();
      Flushed();
      verdict := FireStatement();
    }

    lemma SpacesFrom(rest: bytes, k: nat)
      requires k <= |rest|
      ensures Spaces(rest, k) == k + Spaces(rest[k..], 0)
      ensures rest[k..][..Spaces(rest[k..], 0)] == rest[k..Spaces(rest, k)]
      ensures rest[k..][Spaces(rest[k..], 0)..] == rest[Spaces(rest, k)..]
    {
      SpacesShift(rest, k, 0);
    }

    lemma {:induction false} SpacesShift(rest: bytes, k: nat, i: nat)
      requires k + i <= |rest|
      ensures Spaces(rest, k + i) == k + Spaces(rest[k..], i)
      decreases |rest| - i
    {
      if k + i < |rest| && IsSpace(rest[k + i]) {
        SpacesShift(rest, k, i + 1);
      }
    }

    method LineCommentTurn() returns (verdict: Verdict)
      requires Valid()
      modifies this
      ensures line == old(line) && length == old(length)
      ensures Took(LineComment(conf, old(State()), old(Rest())), verdict, old(pos), old(Rest()))
    {
      ghost var rest := Rest();
      Flushed();
      assert Rest() == rest;
      if conf.preserveComments {
        var startedWithNothing := buffer != [];
        buffer := buffer + line[pos..length];
        if startedWithNothing {
          var stop := |events| in conf.quits;
          events := events + [Statement(buffer)];
          if stop {
            return QuitNow;
          }
          buffer := [];
        }
      }
      return Leave;
    }

    /** The two characters of a comment mark are kept or skipped. */
    method PassMark(first: byte, second: byte)
      requires Valid() && pos + 2 <= length
      modifies this`pos, this`out, line
      ensures Valid() && pos == old(pos) + 2 && Rest() == old(Rest()[2..])
      ensures State() == old(State()).(pending := old(State().pending) + if conf.preserveComments then [first, second] else [])
    {
      ghost var rest := Rest();
      pos := pos + 2;
      assert Rest() == rest[2..];
      if conf.preserveComments {
        Keep(first);
        Keep(second);
      } else {
        assert line[..out] + [] == line[..out];
      }
    }

    /** The two characters that open or close a comment. */
    method CommentMark(first: byte, second: byte, opens: bool) returns (verdict: Verdict)
      requires Valid() && pos + 2 <= length && line[pos] == first && line[pos + 1] == second
      requires if opens then first == SLASH && second == STAR else first == STAR && second == SLASH
      modifies this, line
      ensures line == old(line) && length == old(length)
      ensures var s := old(State());
        Took(Go(if opens then OpenComment(conf, s) else CloseComment(conf, s), 2), verdict, old(pos), old(Rest()))
    {
      PassMark(first, second);
      mlComment := opens;
      assert old(State().pending) + [] == old(State().pending);
      Flushed();
      if !opens {
        needSpace := true;
      }
      return Continue;
    }

    /** Server-side comments and quotes. */
    method TrackQuotes(c: byte)
      requires Valid() && pos < length && c == line[pos]
      modifies this`ssComment, this`inString
      ensures Valid()
      ensures var s := Plain(conf, old(State()), Rest()); ssComment == s.ssComment && inString == s.inString
    {
      assert Rest()[0] == c && At(Rest(), 1) == line[pos + 1];
      if inString == 0 && c == SLASH && line[pos + 1] == STAR && line[pos + 2] == BANG {
        ssComment := true;
      } else if inString == 0 && ssComment && c == STAR && line[pos + 1] == SLASH {
        ssComment := false;
      }
      if c == inString {
        inString := 0;
      } else if !mlComment && inString == 0 && (c == QUOTE || c == DOUBLE_QUOTE || c == BACKTICK) {
        inString := c;
      }
    }

    /** Keep a plain character, with a space in front of it after a comment. */
    method KeepPlain(c: byte)
      requires conf.delimiter != [] && length + 1 == line.Length && line[length] == 0 && Room() < pos <= length
      modifies this`out, this`needSpace, line
      ensures Valid() && Rest() == old(Rest()) && !needSpace
      ensures State() == old(State()).(
        pending := old(State().pending) + (if old(needSpace) && !IsSpace(c) then [SPACE] else []) + [c], needSpace := false)
    {
      if needSpace && !IsSpace(c) {
        Keep(SPACE);
      }
      needSpace := false;
      Keep(c);
    }

    method PlainTurn() returns (verdict: Verdict)
      requires Valid() && pos < length
      modifies this, line
      ensures line == old(line) && length == old(length)
      ensures Took(Go(Plain(conf, old(State()), old(Rest())), 1), verdict, old(pos), old(Rest()))
    {
      ghost var rest := Rest();
      var c := line[pos];
      TrackQuotes(c);
      pos := pos + 1;
      assert Rest() == rest[1..] && c == rest[0];
      if !mlComment || conf.preserveComments {
        KeepPlain(c);
      }
      return Continue;
    }

    /** Line comments, comment marks and plain characters. */
    method CommentOrPlainTurn() returns (verdict: Verdict)
      requires Valid() && pos < length && Turn(conf, State(), Rest()) == CommentOrPlain(conf, State(), Rest())
      modifies this, line
      ensures line == old(line) && length == old(length)
      ensures Took(Turn(conf, old(State()), old(Rest())), verdict, old(pos), old(Rest()))
    {
      hide Turn, LineComment, Plain, OpenComment, CloseComment, StartsLineComment, Took;
      ghost var rest := Rest();
      var c := line[pos];
      assert rest[0] == c && At(rest, 1) == line[pos + 1];
      var comment := AtLineComment();
      if !mlComment && inString == 0 && comment {
        verdict := LineCommentTurn();
      } else if inString == 0 && c == SLASH && line[pos + 1] == STAR && line[pos + 2] != BANG {
        verdict := CommentMark(SLASH, STAR, true);
      } else if mlComment && !ssComment && c == STAR && line[pos + 1] == SLASH {
        verdict := CommentMark(STAR, SLASH, false);
      } else {
        verdict := PlainTurn();
      }
    }

    /** The body of the scanning loop. */
    method OneTurn() returns (verdict: Verdict)
      requires Valid() && pos < length && SequenceLength(line[pos]) <= length - pos && 0 !in Rest()
      modifies this, line
      ensures line == old(line) && length == old(length)
      ensures Took(Turn(conf, old(State()), old(Rest())), verdict, old(pos), old(Rest()))
    {
      hide MultiByte, Backslash, Delimiter, CommentOrPlain, StartsWith, Took;
      assert Rest()[0] == line[pos];
      var c := line[pos];
      if !conf.preserveComments && IsSpace(c) && out == 0 && buffer == [] {
        SkipCharacter(1);
        return Continue;
      }
      if c >= 0x80 && SequenceLength(c) != 0 {
        verdict := MultiByteTurn();
      } else if !mlComment && c == BACKSLASH && !(inString != 0 && conf.noBackslashEscapes) {
        verdict := BackslashTurn();
      } else if !mlComment && inString == 0 && StartsWith(line[pos..length], conf.delimiter) {
        verdict := DelimiterTurn();
      } else {
        verdict := CommentOrPlainTurn();
      }
    }

    /** The scanning loop: it ends at the NUL. */
    method ScanLoop() returns (verdict: Verdict)
      requires Valid() && pos == 0 && 0 !in Rest() && !Scanned(conf, State(), Rest()).Overrun?
      modifies this, line
      ensures line == old(line) && length == old(length)
      ensures match Scanned(conf, old(State()), old(Rest()))
              case Break(s) => verdict == Leave && Valid() && State() == s
              case Quit(s) => verdict == QuitNow && BetweenLines() == Left(s)
              case _ => false
    {
      hide Turn;
      verdict := Continue;
      ghost var was, rest := State(), Rest();
      while line[pos] != 0
        invariant Valid() && line == old(line) && length == old(length) && 0 !in Rest()
        invariant Scanned(conf, State(), Rest()) == Scanned(conf, was, rest)
        decreases length - pos
      {
        ghost var now, left := State(), Rest();
        TurnAdvances(conf, now, left);
        TurnOverruns(conf, now, left);
        assert left[0] == line[pos];
        verdict := OneTurn();
        if verdict != Continue {
          return;
        }
      }
      return Leave;
    }

    /** The newline overwrites a character that has been read, or the NUL. */
    method EndLine() returns (quit: bool)
      requires Valid()
      modifies this, line
      ensures Added(quit, BetweenLines()) == Finish(conf, old(State()))
    {
      if out != 0 || buffer != [] {
        line[out] := NEWLINE;
        var len := out + 1;
        assert line[..len] == old(line[..out]) + [NEWLINE];
        if |buffer| + len > conf.maxInputLine {
          return true;
        }
        if !mlComment || conf.preserveComments {
          assert buffer + old(line[..out]) + [NEWLINE] == buffer + line[..len];
          buffer := buffer + line[..len];
        }
      }
      return false;
    }

    /** The variables of a call, at the start of the line in `text`. */
    method Open(text: array<byte>)
      requires conf.delimiter != [] && text.Length > 0 && text[text.Length - 1] == 0
      modifies this`line, this`length, this`pos, this`out, this`ssComment, this`needSpace
      ensures Valid() && line == text && pos == 0
      ensures State() == Begin(BetweenLines()) && Rest() == text[..text.Length - 1]
    {
      line, length, pos, out, ssComment, needSpace := text, text.Length - 1, 0, 0, false, false;
      assert line[..0] == [] && line[0..length] == text[..text.Length - 1];
    }

    /**
      `add_line`: `text` holds the line and its NUL.  Law: editing in place gives
      exactly what scanning a copy gives, for every line that the source does not
      read past its end; `Scanner.OverrunExactly` says which these are.
     */
    method AddLine(text: array<byte>) returns (quit: bool)
      requires conf.delimiter != [] && text.Length > 0 && text[text.Length - 1] == 0
      requires forall i :: 0 <= i < text.Length - 1 ==> text[i] != 0
      requires Scanner.AddLine(conf, BetweenLines(), text[..]).Added?
      modifies this, text
      ensures Added(quit, BetweenLines()) == Scanner.AddLine(conf, old(BetweenLines()), old(text[..]))
    {
      ghost var whole := text[..text.Length - 1];
      assert text[..] == whole + [0];
      UpToNulWhole(whole);
      hide UpToNul, Scanned, Finish, Valid;
      if text[0] == 0 && buffer == [] {
        assert whole == [];
        return false;
      }
      Open(text);
      var verdict := ScanLoop();
      if verdict == QuitNow {
        return true;
      }
      quit := EndLine();
    }
  }
}
