/**
 * The control-command interpreter of main (proxy.c:219-236), as functions of the
 * bytes of `configbuffer` at the moment a recv has returned data. recv writes the
 * received bytes over the front of the buffer and NUL-terminates nothing, and
 * the buffer is never cleared between commands, so what follows the new line is
 * whatever the earlier commands left there.
 */
module Control {
  import opened Wrappers
  import opened Settings
  import opened CString
  import opened Blocklist

  const BLOCK_PREFIX: string := "BLOCK "
  const UNBLOCK_TOKEN: string := "UNBLOCK"

  /** What one command line does to the blocklist. */
  datatype Command = Block(keyword: string) | Unblock | Other

  /** A buffer of NULs, as after memset(configbuffer, 0, MAX_BUFFER_SIZE). */
  function Cleared(): (r: string)
    ensures |r| == MAX_BUFFER_SIZE && forall k :: 0 <= k < |r| ==> r[k] == NUL
    ensures NUL in r && CStr(r) == ""
  {
    var r := seq(MAX_BUFFER_SIZE, _ => NUL);
    StrLenAt(r, 0);
    r
  }

  /** strncmp(configbuffer, "BLOCK ", 6) == 0 */
  predicate IsBlockLine(b: string): (r: bool)
    ensures r <==> |BLOCK_PREFIX| <= |b| && b[..|BLOCK_PREFIX|] == BLOCK_PREFIX
  {
    StartsWith(b, BLOCK_PREFIX)
  }

  /** A buffer that starts with "BLOCK " holds a C string at least that long. */
  lemma BlockLineLength(b: string)
    requires NUL in b && IsBlockLine(b)
    ensures StrLen(b) >= |BLOCK_PREFIX|
  {
    var n := StrLen(b);
    assert NUL !in BLOCK_PREFIX;
    assert b[..|BLOCK_PREFIX|] == BLOCK_PREFIX;
  }

  /** The buffer after line 223 writes a NUL two characters before the end of the line
      and line 225 moves what lies behind the prefix to the front. */
  function Stripped(b: string): (r: string)
    requires NUL in b && IsBlockLine(b) && StrLen(b) + 4 <= |b|
    ensures |r| == |b| && NUL in r
  {
    BlockLineLength(b);
    var n := StrLen(b);
    var t := b[n - 2 := NUL];
    assert t[..n - 2] == b[..n - 2];
    StrLenAt(t, n - 2);
    var r := MemMove(t, 0, |BLOCK_PREFIX|, StrLen(t));
    assert r[n - 2] == NUL;
    r
  }

  /** The keyword line 227 passes to block. */
  function KeywordOf(b: string): (k: string)
    requires NUL in b && IsBlockLine(b) && StrLen(b) + 4 <= |b|
    ensures NUL !in k && k + [NUL] <= Stripped(b)
    ensures |k| <= StrLen(b) - |BLOCK_PREFIX|
  {
    BlockLineLength(b);
    var n := StrLen(b);
    var r := Stripped(b);
    assert r[n - 6] == NUL by {
      var t := b[n - 2 := NUL];
      assert t[..n - 2] == b[..n - 2];
      StrLenAt(t, n - 2);
    }
    var k := CStr(r);
    k
  }

  /** The buffer contents on which lines 219-233 are defined: strlen finds a NUL,
      memmove stays inside the buffer and strcpy fits the keyword in a slot. */
  predicate Defined(b: string) {
    |b| == MAX_BUFFER_SIZE && NUL in b &&
    (IsBlockLine(b) ==> StrLen(b) + 4 <= |b| && |KeywordOf(b)| < MAX_KEYWORD_SIZE)
  }

  /** The command the buffer is taken for: the "BLOCK " test comes first. */
  function Parse(b: string): (c: Command)
    requires Defined(b)
    ensures c.Block? ==> IsKeyword(c.keyword)
  {
    if IsBlockLine(b) then Block(KeywordOf(b))
    else if Contains(CStr(b), UNBLOCK_TOKEN) then Unblock
    else Other
  }

  /** configbuffer after the command has been handled. */
  function BufferAfter(b: string): (r: string)
    requires Defined(b)
    ensures |r| == |b| && NUL in r
    ensures IsBlockLine(b) ==> KeywordOf(b) + [NUL] <= r
    ensures !IsBlockLine(b) ==> r == b
  {
    if IsBlockLine(b) then Stripped(b) else b
  }

  /** The blocklist after the command has been handled. */
  function TableAfter(t: seq<string>, c: Command): (u: seq<string>)
    requires IsTable(t) && (c.Block? ==> IsKeyword(c.keyword))
    ensures IsTable(u)
    ensures c.Unblock? ==> forall j :: 0 <= j < |u| ==> u[j] == ""
    ensures c.Block? && FirstEmpty(t).Some? ==> c.keyword in u
    ensures c.Other? ==> u == t
  {
    match c
    case Block(keyword) =>
      BlockKeepsTable(t, keyword);
      AfterBlock(t, keyword)
    case Unblock => EmptyTable()
    case Other => t
  }

  /** memmove(t, t + 6, n - 2) on a buffer whose fixed characters are spelled out. */
  lemma {:induction false} MoveLayout(t: string, n: nat)
    requires 8 <= n && n + 4 <= |t|
    ensures MemMove(t, 0, |BLOCK_PREFIX|, n - 2) ==
              t[6..n - 2] + [t[n - 2]] + t[n - 1..n] + t[n..n + 4] + [t[n - 2]] + t[n - 1..n] + t[n..]
  {
    assert MemMove(t, 0, 6, n - 2) == t[6..n + 4] + t[n - 2..];
    assert t[6..n + 4] == t[6..n - 2] + [t[n - 2]] + t[n - 1..n] + t[n..n + 4];
    assert t[n - 2..] == [t[n - 2]] + t[n - 1..n] + t[n..];
  }

  /** The layout of the buffer after a "BLOCK " line of length n that recv followed by a NUL:
      the keyword, a NUL, the last character of the line, four bytes from behind the line,
      and then the truncated line's own tail again. */
  lemma {:induction false} StrippedLayout(b: string, line: string)
    requires NUL !in line && StartsWith(line, BLOCK_PREFIX) && 8 <= |line|
    requires |line| + 4 <= |b| && b[..|line|] == line && b[|line|] == NUL
    ensures NUL in b && IsBlockLine(b) && StrLen(b) == |line|
    ensures Stripped(b) == line[6..|line| - 2] + [NUL] + line[|line| - 1..] + b[|line|..|line| + 4]
                           + [NUL] + line[|line| - 1..] + b[|line|..]
  {
    var n := |line|;
    StrLenAt(b, n);
    assert b[..6] == line[..6];
    var t := b[n - 2 := NUL];
    assert t[..n - 2] == b[..n - 2];
    StrLenAt(t, n - 2);
    assert Stripped(b) == MemMove(t, 0, 6, n - 2);
    MoveLayout(t, n);
    assert t[6..n - 2] == line[6..n - 2];
    assert t[n - 1..n] == line[n - 1..];
    assert t[n..] == b[n..];
  }

  /** A received line with a NUL right behind it is read as the control commands are meant:
      "BLOCK " lines block their text without the prefix and the two-character
      line terminator (the whole text when the line is shorter than eight), other
      lines holding "UNBLOCK" anywhere clear the list, and all else is ignored. */
  lemma {:induction false} ParseFreshLine(b: string, line: string)
    requires |b| == MAX_BUFFER_SIZE && NUL !in line && |line| < |b|
    requires b[..|line|] == line && b[|line|] == NUL
    requires StartsWith(line, BLOCK_PREFIX) ==> |line| < MAX_KEYWORD_SIZE + 8
    ensures Defined(b)
    ensures Parse(b) == (if StartsWith(line, BLOCK_PREFIX) then
                           Block(if |line| < 8 then line[6..] else line[6..|line| - 2])
                         else if Occurs(line, UNBLOCK_TOKEN) then Unblock
                         else Other)
  {
    StrLenAt(b, |line|);
    if StartsWith(line, BLOCK_PREFIX) {
      assert b[..6] == line[..6];
      if |line| >= 8 {
        LongBlockLine(b, line);
      } else {
        ShortBlockLine(b, line);
      }
    } else {
      PlainLine(b, line);
    }
  }

  /** A "BLOCK " line of eight characters or more loses its last two. */
  lemma {:induction false} LongBlockLine(b: string, line: string)
    requires |b| == MAX_BUFFER_SIZE && NUL !in line && 8 <= |line| < MAX_KEYWORD_SIZE + 8
    requires StartsWith(line, BLOCK_PREFIX) && b[..|line|] == line && b[|line|] == NUL
    ensures NUL in b && IsBlockLine(b) && StrLen(b) + 4 <= |b|
    ensures KeywordOf(b) == line[6..|line| - 2]
  {
    var n := |line|;
    StrippedLayout(b, line);
    var r := Stripped(b);
    CStrOf(line[6..n - 2], r[n - 7..]);
    assert r == line[6..n - 2] + [NUL] + r[n - 7..];
  }

  /** A "BLOCK " line of six or seven characters keeps its text after the prefix. */
  lemma {:induction false} ShortBlockLine(b: string, line: string)
    requires |b| == MAX_BUFFER_SIZE && NUL !in line && 6 <= |line| < 8
    requires StartsWith(line, BLOCK_PREFIX) && b[..|line|] == line && b[|line|] == NUL
    ensures NUL in b && IsBlockLine(b) && StrLen(b) + 4 <= |b|
    ensures KeywordOf(b) == line[6..]
  {
    var n := |line|;
    StrLenAt(b, n);
    assert b[..6] == line[..6];
    var r := Stripped(b);
    var t := b[n - 2 := NUL];
    assert r[0] == t[6];
    if n == 6 {
      assert r[..0] == line[6..];
      StrLenAt(r, 0);
    } else {
      assert r[1] == t[7] == b[7] == NUL;
      assert r[..1] == line[6..];
      StrLenAt(r, 1);
    }
  }

  /** A line that does not start with "BLOCK " is read for "UNBLOCK" alone. */
  lemma {:induction false} PlainLine(b: string, line: string)
    requires |b| == MAX_BUFFER_SIZE && NUL !in line && |line| < |b|
    requires !StartsWith(line, BLOCK_PREFIX) && b[..|line|] == line && b[|line|] == NUL
    ensures NUL in b && !IsBlockLine(b) && CStr(b) == line
  {
    var n := |line|;
    StrLenAt(b, n);
    if n >= 6 {
      assert b[..6] == line[..6];
    } else {
      assert b[n] != BLOCK_PREFIX[n];
    }
  }

  /** A "BLOCK " line of eight characters or more with a NUL right behind it blocks the
      line without its prefix and its last two characters, and leaves that keyword and
      its NUL at the front of the buffer. */
  lemma {:induction false} ParseBlockLine(b: string, line: string)
    requires |b| == MAX_BUFFER_SIZE && NUL !in line && 8 <= |line| < MAX_KEYWORD_SIZE + 8
    requires StartsWith(line, BLOCK_PREFIX) && b[..|line|] == line && b[|line|] == NUL
    ensures Defined(b) && Parse(b) == Block(line[6..|line| - 2])
    ensures line[6..|line| - 2] + [NUL] <= BufferAfter(b)
  {
    LongBlockLine(b, line);
    StrippedKeywordFront(b, line);
  }

  /** The keyword of a "BLOCK " line followed by a NUL ends the buffer's C string after handling. */
  lemma {:induction false} StrippedKeywordFront(b: string, line: string)
    requires NUL !in line && StartsWith(line, BLOCK_PREFIX) && 8 <= |line|
    requires |line| + 4 <= |b| && b[..|line|] == line && b[|line|] == NUL
    ensures IsBlockLine(b) && StrLen(b) == |line|
    ensures line[6..|line| - 2] + [NUL] <= Stripped(b)
  {
    var n := |line|;
    StrLenAt(b, n);
    assert b[..6] == line[..6];
    var t := b[n - 2 := NUL];
    assert t[..n - 2] == b[..n - 2];
    StrLenAt(t, n - 2);
    var r := Stripped(b);
    assert r == MemMove(t, 0, 6, n - 2);
    assert r[..n - 7] == t[6..n - 1];
    assert t[6..n - 1] == line[6..n - 2] + [NUL];
  }

  /** A "BLOCK " line spelled as prefix, keyword and two last characters. */
  lemma BlockLineText(line: string, keyword: string, last: string)
    requires line == BLOCK_PREFIX + keyword + last && NUL !in keyword && NUL !in last && |last| == 2
    ensures NUL !in line && StartsWith(line, BLOCK_PREFIX) && line[6..|line| - 2] == keyword
  {
    assert line[..6] == BLOCK_PREFIX;
  }

  /** With the line test first, "BLOCK UNBLOCK\r\n" blocks the keyword "UNBLOCK"
      instead of clearing the list. */
  lemma BlockUnblockLine(b: string, line: string)
    requires line == "BLOCK UNBLOCK\r\n"
    requires |b| == MAX_BUFFER_SIZE && b[..15] == line && b[15] == NUL
    ensures Defined(b) && Parse(b) == Block(UNBLOCK_TOKEN)
  {
    assert line == BLOCK_PREFIX + UNBLOCK_TOKEN + "\r\n";
    BlockLineText(line, UNBLOCK_TOKEN, "\r\n");
    ParseBlockLine(b, line);
  }

  /** "UNBLOCK\r\n" clears the list. */
  lemma UnblockLine(b: string, line: string)
    requires line == "UNBLOCK\r\n"
    requires |b| == MAX_BUFFER_SIZE && b[..9] == line && b[9] == NUL
    ensures Defined(b) && Parse(b) == Unblock
  {
    assert NUL !in line && OccursAt(line, UNBLOCK_TOKEN, 0);
    assert line[0] != BLOCK_PREFIX[0];
    PlainLine(b, line);
  }

  /** Two characters are stripped whatever the line terminator: a line ended by "\n" alone
      loses the last character of its keyword. */
  lemma NewlineOnlyLine(b: string, line: string)
    requires line == "BLOCK ads\n"
    requires |b| == MAX_BUFFER_SIZE && b[..10] == line && b[10] == NUL
    ensures Defined(b) && Parse(b) == Block("ad")
  {
    assert line == BLOCK_PREFIX + "ad" + "s\n";
    BlockLineText(line, "ad", "s\n");
    ParseBlockLine(b, line);
  }

  /** Handling "BLOCK advertisement\r\n" leaves the keyword and its NUL at the front. */
  lemma AdvertisementLeaves(b: string, line: string)
    requires line == "BLOCK advertisement\r\n"
    requires |b| == MAX_BUFFER_SIZE && b[..21] == line && b[21] == NUL
    ensures Defined(b)
    ensures "advertisement" + [NUL] <= BufferAfter(b)
  {
    assert line == BLOCK_PREFIX + "advertisement" + "\r\n";
    BlockLineText(line, "advertisement", "\r\n");
    ParseBlockLine(b, line);
  }

  /** "BLOCK x\r\n" received over a buffer that starts with "advertisement" blocks "x\r\nme". */
  lemma ShortAfterLong(b1: string, line: string)
    requires line == "BLOCK x\r\nment"
    requires |b1| == MAX_BUFFER_SIZE && "advertisement" + [NUL] <= b1
    ensures Defined(Received(b1, "BLOCK x\r\n"))
    ensures Parse(Received(b1, "BLOCK x\r\n")) == Block("x\r\nme")
  {
    assert b1[..14] == "advertisement" + [NUL];
    var b2 := Received(b1, "BLOCK x\r\n");
    assert b1[9..14] == "ment" + [NUL];
    assert b2[..13] == "BLOCK x\r\n" + b1[9..13];
    assert line == BLOCK_PREFIX + "x\r\nme" + "nt";
    BlockLineText(line, "x\r\nme", "nt");
    ParseBlockLine(b2, line);
  }

  /** The stale tail, as written: after "BLOCK advertisement\r\n" has been handled, a
      following "BLOCK x\r\n" lands on the leftover "ment" of the first keyword and
      blocks "x\r\nme" instead of "x". */
  lemma StaleTailKeyword(b: string)
    requires |b| == MAX_BUFFER_SIZE && b[21] == NUL
    ensures Defined(Received(b, "BLOCK advertisement\r\n"))
    ensures var b1 := BufferAfter(Received(b, "BLOCK advertisement\r\n"));
            Defined(Received(b1, "BLOCK x\r\n")) &&
            Parse(Received(b1, "BLOCK x\r\n")) == Block("x\r\nme")
  {
    var b0 := Received(b, "BLOCK advertisement\r\n");
    AdvertisementLeaves(b0, "BLOCK advertisement\r\n");
    ShortAfterLong(BufferAfter(b0), "BLOCK x\r\nment");
  }

  /** With configbuffer cleared after every command, each command
      is read from its own line alone, whatever came before it. */
  lemma ClearedReadsLineAlone(line: string)
    requires NUL !in line && 0 < |line| < MAX_BUFFER_SIZE
    requires StartsWith(line, BLOCK_PREFIX) ==> |line| < MAX_KEYWORD_SIZE + 8
    ensures Defined(Received(Cleared(), line))
    ensures StartsWith(line, BLOCK_PREFIX) && 8 <= |line| ==>
              Parse(Received(Cleared(), line)) == Block(line[6..|line| - 2])
    ensures !StartsWith(line, BLOCK_PREFIX) ==>
              Parse(Received(Cleared(), line)) == (if Occurs(line, UNBLOCK_TOKEN) then Unblock else Other)
  {
    var b := Received(Cleared(), line);
    assert b[..|line|] == line;
    ParseFreshLine(b, line);
  }
}
