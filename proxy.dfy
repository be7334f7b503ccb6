/**
 * The state main keeps between iterations of its loop: the blocklist, the request
 * buffer `buffer` and the configuration buffer `configbuffer`. The sockets are left
 * out; each recv that returns data is a method taking the received bytes as input.
 */
module Proxy {
  import opened Wrappers
  import opened Settings
  import opened CString
  import opened Blocklist
  import opened Control
  import opened Redirect

  const GET_TOKEN: string := "GET"

  /** The test of line 246: the request holds "GET" and isBlocked finds one of the
      keywords in it. */
  function ShouldRewrite(content: string, t: seq<string>): (r: bool)
    ensures r <==> Occurs(content, GET_TOKEN) &&
                   exists j :: 0 <= j < |t| && t[j] != "" && Occurs(content, t[j])
  {
    Contains(content, GET_TOKEN) && FirstMatch(t, content).Some?
  }

  /** A request holding "GET" and a keyword that block has just stored is rewritten. */
  lemma BlockedKeywordRedirects(t: seq<string>, keyword: string, content: string)
    requires FirstEmpty(t).Some? && keyword != ""
    requires Occurs(content, keyword) && Occurs(content, GET_TOKEN)
    ensures ShouldRewrite(content, AfterBlock(t, keyword))
  {
    BlockThenMatch(t, keyword, content);
  }

  /** After unblockAll no request is rewritten. */
  lemma UnblockedPassesThrough(content: string)
    ensures !ShouldRewrite(content, EmptyTable())
  {
    EmptyTableMatchesNothing(content);
  }

  /** The control protocol end to end: "BLOCK <keyword>\r\n" makes the next
      GET request holding the keyword a rewrite, and a later "UNBLOCK\r\n" lets it through. */
  lemma {:induction false} BlockThenUnblock(t: seq<string>, b1: string, keyword: string, b2: string, content: string)
    requires IsTable(t) && FirstEmpty(t).Some?
    requires NUL !in keyword && 0 < |keyword| < MAX_KEYWORD_SIZE
    requires |b1| == MAX_BUFFER_SIZE && b1[..|keyword| + 8] == BLOCK_PREFIX + keyword + "\r\n"
    requires b1[|keyword| + 8] == NUL
    requires |b2| == MAX_BUFFER_SIZE && b2[..9] == "UNBLOCK\r\n" && b2[9] == NUL
    requires Occurs(content, keyword) && Occurs(content, GET_TOKEN)
    ensures Defined(b1) && Parse(b1) == Block(keyword)
    ensures ShouldRewrite(content, TableAfter(t, Parse(b1)))
    ensures Defined(b2) && Parse(b2) == Unblock
    ensures !ShouldRewrite(content, TableAfter(TableAfter(t, Parse(b1)), Parse(b2)))
  {
    var line := BLOCK_PREFIX + keyword + "\r\n";
    BlockLineText(line, keyword, "\r\n");
    ParseBlockLine(b1, line);
    BlockedKeywordRedirects(t, keyword, content);
    UnblockLine(b2, "UNBLOCK\r\n");
    UnblockedPassesThrough(content);
  }

  class Proxy {
    var blocklist: Blocklist
    /** `buffer` of main: the request received from the client. */
    var buffer: array<char>
    /** `configbuffer` of main: the last command line received on the configuration port. */
    var configBuffer: array<char>

    ghost predicate Valid()
      reads this, blocklist, blocklist.slots
    {
      blocklist.Valid() && buffer.Length == MAX_BUFFER_SIZE &&
      configBuffer.Length == MAX_BUFFER_SIZE && buffer != configBuffer
    }

    /** The buffers zeroed and the blocklist emptied before the loop (proxy.c:175-206). */
    constructor ()
      ensures Valid() && fresh(blocklist) && fresh(blocklist.slots) && fresh(buffer) && fresh(configBuffer)
      ensures buffer[..] == Cleared() && configBuffer[..] == Cleared()
      ensures blocklist.Table() == EmptyTable()
    {
      configBuffer := new char[MAX_BUFFER_SIZE](_ => NUL);
      buffer := new char[MAX_BUFFER_SIZE](_ => NUL);
      blocklist := new Blocklist();
    }

    /** recv on the configuration connection returned the bytes `data` (line 219). */
    method ReceiveCommand(data: string)
      requires Valid() && 0 < |data| <= MAX_BUFFER_SIZE
      modifies configBuffer
      ensures Valid()
      ensures configBuffer[..] == Received(old(configBuffer[..]), data)
    {
      ReceiveInto(configBuffer, data);
    }

    /** Lines 221-233: a "BLOCK " line is cut two characters before its end, shifted
        left over the prefix and handed to block; otherwise a line holding "UNBLOCK"
        empties the list. configbuffer keeps whatever the handling left in it. */
    method HandleCommand() returns (cmd: Command)
      requires Valid() && Defined(configBuffer[..])
      modifies configBuffer, blocklist.slots
      ensures Valid()
      ensures cmd == Parse(old(configBuffer[..]))
      ensures configBuffer[..] == BufferAfter(old(configBuffer[..]))
      ensures blocklist.Table() == TableAfter(old(blocklist.Table()), cmd)
    {
      if StartsWith(configBuffer[..], BLOCK_PREFIX) {
        cmd := HandleBlockLine();
      } else if Contains(CStr(configBuffer[..]), UNBLOCK_TOKEN) {
        blocklist.UnblockAll();
        cmd := Unblock;
      } else {
        cmd := Other;
      }
    }

    /** Lines 223-227: cut the line two characters before its end, shift it left over
        "BLOCK " and block what is left. */
    method HandleBlockLine() returns (cmd: Command)
      requires Valid() && Defined(configBuffer[..]) && IsBlockLine(configBuffer[..])
      modifies configBuffer, blocklist.slots
      ensures Valid()
      ensures cmd == Block(KeywordOf(old(configBuffer[..])))
      ensures configBuffer[..] == Stripped(old(configBuffer[..]))
      ensures blocklist.Table() == AfterBlock(old(blocklist.Table()), cmd.keyword)
    {
      BlockLineLength(configBuffer[..]);
      var n := StrLen(configBuffer[..]);
      configBuffer[n - 2] := NUL;
      var m := StrLen(configBuffer[..]);
      MoveBytes(configBuffer, 0, |BLOCK_PREFIX|, m);
      var keyword := CStr(configBuffer[..]);
      var _ := blocklist.Block(keyword);
      cmd := Block(keyword);
    }

    /** HandleCommand followed by clearing configbuffer, which lines 219-236
        omit; the next command is then read from its own bytes alone. */
    method HandleCommandAndClear() returns (cmd: Command)
      requires Valid() && Defined(configBuffer[..])
      modifies configBuffer, blocklist.slots
      ensures Valid()
      ensures cmd == Parse(old(configBuffer[..]))
      ensures configBuffer[..] == Cleared()
      ensures blocklist.Table() == TableAfter(old(blocklist.Table()), cmd)
    {
      cmd := HandleCommand();
      Zero(configBuffer);
    }

    /** recv on the client connection returned the bytes `data` (line 239). */
    method ReceiveRequest(data: string)
      requires Valid() && 0 < |data| <= MAX_BUFFER_SIZE
      modifies buffer
      ensures Valid()
      ensures buffer[..] == Received(old(buffer[..]), data)
    {
      ReceiveInto(buffer, data);
    }

    /** Lines 246-250: a GET request in which isBlocked finds a keyword is redirected to
        ERROR_URL; any other request stays as it was, byte for byte. */
    method RewriteIfBlocked() returns (rewritten: bool)
      requires Valid() && NUL in buffer[..]
      requires ShouldRewrite(CStr(buffer[..]), blocklist.Table()) ==> RedirectDefined(buffer[..])
      modifies buffer
      ensures Valid()
      ensures rewritten == ShouldRewrite(CStr(old(buffer[..])), blocklist.Table())
      ensures rewritten ==> buffer[..] == Redirected(old(buffer[..]), ERROR_URL)
      ensures !rewritten ==> buffer[..] == old(buffer[..])
    {
      var content := CStr(buffer[..]);
      rewritten := false;
      if Contains(content, GET_TOKEN) {
        var keyword := blocklist.IsBlocked(content);
        if keyword.Some? {
          HttpRedirect(buffer, ERROR_URL);
          rewritten := true;
        }
      }
    }
  }
}
