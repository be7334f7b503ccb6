# Keyword-blocking HTTP proxy: a Dafny model

`proxy.c` is a small HTTP proxy with a configuration console. A user on the
configuration connection sends `BLOCK <keyword>` to add a keyword to a five-slot
blocklist, or a line holding `UNBLOCK` to clear the list. Every GET request from a
client that contains a blocked keyword has its request line rewritten so that it asks
for a fixed error page (`ERROR_URL`).

This project models that keyword-blocking core:

- **Blocklist store** (`blocklist.dfy`). The table `blockedKeywords[5][50]` is a class
  over an `array<string>` with one slot per row; the empty string is a free slot.
  - `block` fills the lowest free slot.
  - `unblockAll` empties every slot.
  - `isBlocked` returns the first occupied slot whose keyword occurs in the content.
  - Each method is proved against a function on the table (`FirstEmpty`, `AfterBlock`,
    `FirstMatch`).
- **Request rewriter** (`redirect.dfy`). `httpRedirect` works on the request buffer in
  place.
  - `Redirected` is the buffer it leaves, as written.
  - `Intended` is the rewrite its comment describes.
  - `HttpRedirect` and `HttpRedirectIntended` are array methods proved against these
    two functions.
- **Control-command interpreter** (`control.dfy`). Lines 219-236 of `main` are modelled
  as functions of the 2048 bytes of `configbuffer` at the moment `recv` returns.
  - `Parse` gives the command.
  - `BufferAfter` gives what the handling leaves in the buffer.
  - `TableAfter` gives the new blocklist.
- **The proxy state** (`proxy.dfy`). `main`'s blocklist, `buffer` and `configbuffer`
  become a class.
  - Receive steps take the bytes `recv` returned as input.
  - `HandleCommand` is lines 219-236.
  - `RewriteIfBlocked` is the test at lines 246-250.
- **C library routines** (`cstring.dfy`). `strlen`, `strstr`, `strncmp`, `memmove`,
  `strncpy`, `snprintf` with `%s` and the effect of `recv` are functions on buffer
  contents (`seq<char>`). The in-place ones also have an array method proved against
  their function. `memset` is the method `CString.Zero`; the zeroed 2048-byte buffer it
  leaves is the function `Control.Cleared`.

C strings are modelled byte for byte. A C string is the part of a buffer before its
first NUL. `recv` overwrites the front of a buffer and NUL-terminates nothing, so bytes
left behind by earlier commands stay visible to later ones.

Undefined behaviour in the C code is excluded by preconditions rather than modelled:
- `Control.Defined` requires that `strlen` finds a NUL inside the buffer, that `memmove`
  stays inside it, and that the keyword fits a 50-byte slot.
- `Redirect.RedirectDefined` requires that `strstr(request, "HTTP")` is neither NULL nor
  the buffer's first character, where `- 1` would point before the buffer.

The model follows the code in two places where it behaves differently from what the
proxy is meant to do. A control command is meant to be read on its own, with the
configuration buffer cleared after each command; the code clears only `configresponse`
(line 235). The rewrite is meant to keep the HTTP version and the headers behind the new
URL (lines 151-159); the code keeps none of the request. Both are under "## Findings".

## Model

| member | source | states |
|---|---|---|
| CString.StrLen | proxy.c:223 | `strlen`: the index of the first NUL, with no NUL before it |
| CString.CStr | proxy.c:227 | the C string of a buffer is NUL-free and is followed by a NUL in the buffer |
| CString.FindFrom | proxy.c:143 | `strstr` from an index: the first occurrence at or after it, or none at all |
| CString.Find | proxy.c:229 | `strstr`: None exactly when the pattern does not occur, otherwise the lowest index where it occurs |
| CString.Contains | proxy.c:246 | `strstr(...)` is non-NULL exactly when the pattern occurs in the text |
| CString.ContainsEmpty | proxy.c:143 | `strstr` with an empty needle finds it at index 0 |
| CString.StartsWith | proxy.c:221 | `strncmp` of the buffer and a prefix over the prefix's length is 0: the first bytes of the buffer are the prefix, character for character |
| CString.MemMove | proxy.c:225 | `memmove`: the destination range holds the old source bytes and every other byte is unchanged |
| CString.MoveBytes | proxy.c:225 | the in-place `memmove` (copying forwards or backwards) leaves exactly `MemMove` of the old buffer |
| CString.MoveForward | proxy.c:225 | copying from the front moves the source range down without reading an overwritten byte; every other byte is unchanged |
| CString.MoveBackward | proxy.c:225 | copying from the back moves the source range up without reading an overwritten byte; every other byte is unchanged |
| CString.StrNCpy | proxy.c:159 | `strncpy`: the first `CopyLen` bytes are those of the source, the rest up to n are NUL, and every byte from n on is unchanged |
| CString.CopyLen | proxy.c:159 | `strncpy` copies up to the source's first NUL or n characters, whichever comes first, and no NUL before that |
| CString.CopyBounded | proxy.c:159 | the in-place `strncpy` leaves exactly `StrNCpy` of the old buffer |
| CString.Truncate | proxy.c:161 | the truncation is a prefix of the text; it is the whole text when that fits and exactly n characters otherwise |
| CString.NulFree | proxy.c:161 | what `%s` reads: the argument up to its first NUL, or the whole argument when it has no NUL |
| CString.SnPrintf | proxy.c:161 | `snprintf` leaves the truncated text as the buffer's C string and leaves the bytes behind its NUL untouched |
| CString.FormatInto | proxy.c:161 | the in-place `snprintf` leaves exactly `SnPrintf` of the old buffer |
| CString.Received | proxy.c:219 | after `recv` the buffer starts with the received bytes and every byte behind them keeps its old value |
| CString.ReceiveInto | proxy.c:239 | `recv` overwrites the front of the array with the data and leaves the rest as it was |
| CString.Zero | proxy.c:197 | `memset(buf, 0, MAX_BUFFER_SIZE)` leaves every byte NUL |
| Blocklist.FirstEmpty | proxy.c:116-118 | the lowest-index free slot, and None exactly when every slot is in use |
| Blocklist.AfterBlock | proxy.c:116-124 | `block` changes only a free slot, to the keyword, and the keyword is in the table whenever a slot was free |
| Blocklist.FirstMatch | proxy.c:142-148 | the lowest-index occupied slot whose keyword occurs in the content; None exactly when no occupied slot occurs |
| Blocklist.MatchedKeyword | proxy.c:141-149 | what `isBlocked` returns: a non-empty keyword of the table occurring in the content, and NULL exactly when no occupied slot occurs |
| Blocklist.BlockFillsLowestEmpty | proxy.c:116-122 | with slot i free and all lower slots in use, `block` writes slot i and changes no other slot |
| Blocklist.BlockFullUnchanged | proxy.c:116-124 | on a full table `block` finds no slot and leaves the table unchanged |
| Blocklist.BlockKeepsTable | proxy.c:116-124 | `block` keeps every slot a well-formed C string shorter than 50 characters, with a long keyword allowed when the table is full |
| Blocklist.FreeSlotWouldMatchAll | proxy.c:143 | without the `strlen > 0` test, one free slot would match every content |
| Blocklist.BlockThenMatch | proxy.c:115-149 | after blocking a non-empty keyword, content holding it is reported blocked, at that slot or a lower one |
| Blocklist.EmptyTableMatchesNothing | proxy.c:141-149 | on an empty table `isBlocked` returns NULL for every content |
| Blocklist.Blocklist.constructor | proxy.c:205-206 | the table starts with every slot free |
| Blocklist.Blocklist.Block | proxy.c:115-125 | returns TRUE exactly when a free slot exists, and the new table is `AfterBlock` of the old one |
| Blocklist.Blocklist.UnblockAll | proxy.c:130-135 | every slot is free afterwards, and a second call changes nothing |
| Blocklist.Blocklist.IsBlocked | proxy.c:141-149 | returns the first matching slot's keyword, which is non-empty, occurs in the content and is in the table; NULL exactly when no occupied slot occurs |
| Control.BlockLineLength | proxy.c:221-223 | a buffer starting with "BLOCK " holds a C string of length 6 or more |
| Control.Cleared | proxy.c:197 | the buffer after `memset(configbuffer, 0, MAX_BUFFER_SIZE)`: 2048 NULs, holding the empty C string |
| Control.IsBlockLine | proxy.c:221 | `strncmp(configbuffer, "BLOCK ", 6) == 0`: the buffer starts with "BLOCK " |
| Control.Stripped | proxy.c:223-225 | the NUL written at line 223 and the shift at line 225 keep the buffer length and leave a NUL in it |
| Control.KeywordOf | proxy.c:223-227 | the keyword passed to `block` is NUL-free, sits at the front of the shifted buffer, and is no longer than the line's text after "BLOCK " |
| Control.Parse | proxy.c:221-233 | a parsed BLOCK command's keyword fits a slot and holds no NUL |
| Control.BufferAfter | proxy.c:221-233 | configbuffer after a command: a "BLOCK " line leaves its keyword and a NUL at the front; any other line leaves the buffer as it was |
| Control.TableAfter | proxy.c:221-233 | the table after a command stays well-formed; UNBLOCK frees every slot, BLOCK stores the keyword when a slot is free, anything else changes nothing |
| Control.StrippedLayout | proxy.c:223-225 | for a "BLOCK " line followed by a NUL: the keyword, a NUL, the line's last character, four bytes from behind the line, then the truncated line's tail again |
| Control.ParseFreshLine | proxy.c:219-233 | a line followed by a NUL: "BLOCK " lines block `line[6..n-2]` (or `line[6..]` below 8 characters); else a line holding "UNBLOCK" clears; else nothing |
| Control.LongBlockLine | proxy.c:221-227 | the keyword of a "BLOCK " line of 8 or more characters is the line without its prefix and its last two characters |
| Control.ShortBlockLine | proxy.c:221-227 | the keyword of a 6- or 7-character "BLOCK " line is all of its text after the prefix |
| Control.PlainLine | proxy.c:221-229 | a line not starting with "BLOCK " goes to the "UNBLOCK" test with its own text as the C string |
| Control.ParseBlockLine | proxy.c:221-227 | a "BLOCK " line blocks `line[6..n-2]` and leaves that keyword and a NUL at the front of configbuffer |
| Control.StrippedKeywordFront | proxy.c:223-227 | after stripping, the buffer starts with the keyword and its NUL |
| Control.BlockUnblockLine | proxy.c:221-229 | because the BLOCK test comes first, "BLOCK UNBLOCK\r\n" blocks the keyword "UNBLOCK" |
| Control.UnblockLine | proxy.c:229-231 | "UNBLOCK\r\n" is read as the unblock command |
| Control.NewlineOnlyLine | proxy.c:223 | two characters are cut whatever the terminator: "BLOCK ads\n" blocks "ad" |
| Control.AdvertisementLeaves | proxy.c:219-227 | after "BLOCK advertisement\r\n" the buffer starts with "advertisement" and a NUL |
| Control.ShortAfterLong | proxy.c:219-227 | "BLOCK x\r\n" received over that buffer blocks "x\r\nme" |
| Control.StaleTailKeyword | proxy.c:219-236 | as written, after "BLOCK advertisement\r\n" a following "BLOCK x\r\n" blocks "x\r\nme" |
| Control.ClearedReadsLineAlone | proxy.c:219-233 | with the buffer cleared beforehand, each command is read from its own line alone |
| Redirect.Redirected | proxy.c:154-161 | the rewritten request is "GET " and the URL, truncated to 2047 characters and NUL-terminated; bytes behind the NUL are unchanged |
| Redirect.Intended | proxy.c:151-159 | the intended rewrite starts with "GET " and leaves the bytes behind its NUL untouched; `IntendedKeepsTail` gives the rest of its C string |
| Redirect.RedirectForgetsRequest | proxy.c:155-161 | as written, the rewritten request is the same C string whatever the original request was |
| Redirect.IntendedKeepsTail | proxy.c:151-159 | the intended rewrite is "GET ", the URL, then the request from just before its first "HTTP" |
| Redirect.RedirectRequest | proxy.c:154-161 | for a request followed by a NUL: as written only "GET " and the URL remain; as intended the tail from before "HTTP" is kept |
| Redirect.RedirectDropsVersion | proxy.c:154-161 | "GET /secret HTTP/1.1\r\nHost: x\r\n\r\n" becomes "GET http://err/e.html" with no version or headers; as intended they are kept |
| Redirect.FindSecret | proxy.c:159 | `strstr` finds "HTTP" at index 12 of that request |
| Redirect.TailFromBuffer | proxy.c:159 | the tail from just before "HTTP" is the C string's own suffix from that index |
| Redirect.HttpRedirect | proxy.c:154-162 | the in-place rewrite leaves exactly `Redirected` of the old request |
| Redirect.HttpRedirectIntended | proxy.c:151-161 | with `strncpy` given the tail's length, the in-place rewrite leaves exactly `Intended` of the old request |
| Proxy.ShouldRewrite | proxy.c:246 | a request is rewritten exactly when it holds "GET" and some occupied slot's keyword |
| Proxy.BlockedKeywordRedirects | proxy.c:227-246 | a GET request holding a keyword just blocked is rewritten |
| Proxy.UnblockedPassesThrough | proxy.c:231-246 | after `unblockAll` no request is rewritten |
| Proxy.BlockThenUnblock | proxy.c:219-250 | "BLOCK kw\r\n" makes a GET request holding kw a rewrite, and a following "UNBLOCK\r\n" lets it through |
| Proxy.Proxy.constructor | proxy.c:175-206 | both buffers start as NULs and the blocklist starts empty |
| Proxy.Proxy.ReceiveCommand | proxy.c:219 | configbuffer becomes `Received` of its old contents |
| Proxy.Proxy.HandleCommand | proxy.c:219-236 | the command is `Parse` of configbuffer, configbuffer becomes `BufferAfter`, and the table becomes `TableAfter` |
| Proxy.Proxy.HandleBlockLine | proxy.c:223-227 | the command is `Block` of `KeywordOf`, configbuffer becomes `Stripped` of its old contents, and the table becomes `AfterBlock` with that keyword |
| Proxy.Proxy.HandleCommandAndClear | proxy.c:219-236 | the same command and table change, with configbuffer all NULs afterwards |
| Proxy.Proxy.ReceiveRequest | proxy.c:239 | buffer becomes `Received` of its old contents |
| Proxy.Proxy.RewriteIfBlocked | proxy.c:246-250 | rewrites exactly when `ShouldRewrite` holds, leaving `Redirected` with ERROR_URL; otherwise the buffer is unchanged byte for byte |

## Left out

- Socket setup and error exit (`check`, `initClient`, `initServer`, `initConfigServer`, proxy.c:37-109): operating-system calls.
- The accept loops, the upstream relay and the reply loop (proxy.c:179-194, 215-218, 244, 252-265): network I/O. The received bytes are inputs to `ReceiveCommand` and `ReceiveRequest` instead.
- Line 252 sends the original `bytes` count rather than the length of the rewritten request. This is not modelled because sending is I/O.
- `memset(buffer, 0, MAX_KEYWORD_SIZE)` at lines 254 and 272 clears only 50 of the 2048 bytes. It belongs to the relay loop and is not modelled. `RewriteIfBlocked` instead requires a NUL somewhere in the buffer.
- Socket timeouts and non-blocking mode (lines 106 and 190): timing.
- Console output (`printf`, `perror`) and the `configresponse` text (lines 228, 232, 234-235): logging only.
- Proxy.Proxy.RewriteIfBlocked: requires `RedirectDefined` whenever the rewrite fires. A blocked GET request without "HTTP", or with it at index 0, is undefined behaviour in the C code.
- Proxy.Proxy.HandleCommand: requires `Control.Defined`. Behaviour when `strlen` runs off the buffer, `memmove` reads past it, or `strcpy` overflows a 50-byte slot is undefined in C and not modelled.
- Blocklist.Blocklist.Block: requires a keyword shorter than 50 characters whenever a free slot exists, because `strcpy` at line 120 does not check bounds. On a full table any keyword is accepted, as in C.
- Control.Defined: requires the keyword of a "BLOCK " line to be shorter than 50 characters even when the table is full. In C a longer keyword is harmless then, because `block` copies nothing; the model excludes that case.
- Redirect.HttpRedirect: the missing `return` of a `char*` function is not modelled; the method returns nothing.
- `recv` returning 0 or an error (the `> 0` tests at lines 219 and 239): the receive methods are only called with at least one byte.

## Findings

| source | as written | input that shows it | evidently intended | confidence | as-written member | corrected member |
|---|---|---|---|---|---|---|
| proxy.c:219-236 | `configbuffer` is never cleared between commands and `recv` does not NUL-terminate, so a short command is read together with the tail of an earlier, longer one | "BLOCK advertisement\r\n" and then "BLOCK x\r\n" blocks the keyword "x\r\nme" | each command is read from its own line: clear configbuffer after handling (`Proxy.Proxy.HandleCommandAndClear`), so "BLOCK x\r\n" blocks "x" | not executed; proved on the model | Control.StaleTailKeyword | Control.ClearedReadsLineAlone |
| proxy.c:156-159 | `strncpy` is given `strlen(content)` of a buffer zeroed at line 156, which is 0, so nothing of the request after the URL survives | "GET /secret HTTP/1.1\r\nHost: x\r\n\r\n" becomes "GET http://err/e.html" | as the comments at lines 151-159 say, keep the request from just before "HTTP" behind the new URL (`Redirect.HttpRedirectIntended`) | not executed; proved on the model | Redirect.RedirectDropsVersion | Redirect.IntendedKeepsTail |
