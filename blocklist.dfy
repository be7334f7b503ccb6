/**
 * The blocklist store: `char blockedKeywords[MAX_BLOCKED_KEYWORDS][MAX_KEYWORD_SIZE]`
 * with block, unblockAll and isBlocked. Each slot is modelled by the C string it
 * holds; the empty string is a free slot.
 */
module Blocklist {
  import opened Wrappers
  import opened Settings
  import opened CString

  /** A string strcpy can store in one slot without overflowing it. */
  predicate IsKeyword(s: string) {
    |s| < MAX_KEYWORD_SIZE && NUL !in s
  }

  /** The abstract value of the table. */
  predicate IsTable(t: seq<string>) {
    |t| == MAX_BLOCKED_KEYWORDS && forall i :: 0 <= i < |t| ==> IsKeyword(t[i])
  }

  /** Every slot free, as after unblockAll. */
  function EmptyTable(): seq<string> {
    seq(MAX_BLOCKED_KEYWORDS, _ => "")
  }

  /** The lowest-index free slot, None when every slot is in use. */
  function FirstEmpty(t: seq<string>): (r: Option<nat>)
    ensures r.Some? ==> r.value < |t| && t[r.value] == "" && forall j :: 0 <= j < r.value ==> t[j] != ""
    ensures r.None? ==> forall j :: 0 <= j < |t| ==> t[j] != ""
  {
    if t == [] then None
    else if t[0] == "" then Some(0)
    else match FirstEmpty(t[1..]) {
      case None => None
      case Some(k) => Some(k + 1)
    }
  }

  /** The table after block(keyword). */
  function AfterBlock(t: seq<string>, keyword: string): (u: seq<string>)
    ensures |u| == |t|
    ensures forall j :: 0 <= j < |t| ==> u[j] == t[j] || (t[j] == "" && u[j] == keyword)
    ensures (exists j :: 0 <= j < |t| && t[j] == "") ==> keyword in u
  {
    match FirstEmpty(t)
    case Some(i) => t[i := keyword]
    case None => t
  }

  /** The lowest-index occupied slot whose keyword occurs in `content`. */
  function FirstMatch(t: seq<string>, content: string): (r: Option<nat>)
    ensures r.Some? ==> r.value < |t| && t[r.value] != "" && Occurs(content, t[r.value])
    ensures r.Some? ==> forall j :: 0 <= j < r.value ==> t[j] == "" || !Occurs(content, t[j])
    ensures r.None? <==> forall j :: 0 <= j < |t| ==> t[j] == "" || !Occurs(content, t[j])
  {
    if t == [] then None
    else if t[0] != "" && Contains(content, t[0]) then Some(0)
    else match FirstMatch(t[1..], content) {
      case None => None
      case Some(k) => Some(k + 1)
    }
  }

  /** What isBlocked returns: the matching keyword, or None for NULL. */
  function MatchedKeyword(t: seq<string>, content: string): (r: Option<string>)
    ensures r.Some? ==> r.value in t && r.value != "" && Occurs(content, r.value)
    ensures r.None? <==> forall j :: 0 <= j < |t| ==> t[j] == "" || !Occurs(content, t[j])
  {
    match FirstMatch(t, content)
    case Some(i) => Some(t[i])
    case None => None
  }

  /** block stores the keyword in the lowest free slot and nowhere else. */
  lemma BlockFillsLowestEmpty(t: seq<string>, keyword: string, i: nat)
    requires i < |t| && t[i] == ""
    requires forall j :: 0 <= j < i ==> t[j] != ""
    ensures FirstEmpty(t) == Some(i)
    ensures AfterBlock(t, keyword) == t[i := keyword]
  {
  }

  /** On a full table block changes nothing. */
  lemma BlockFullUnchanged(t: seq<string>, keyword: string)
    requires forall j :: 0 <= j < |t| ==> t[j] != ""
    ensures FirstEmpty(t) == None && AfterBlock(t, keyword) == t
  {
  }

  /** block keeps every slot a well-formed keyword; on a full table the keyword is
      never copied, so its length does not matter. */
  lemma BlockKeepsTable(t: seq<string>, keyword: string)
    requires IsTable(t) && NUL !in keyword
    requires FirstEmpty(t).Some? ==> |keyword| < MAX_KEYWORD_SIZE
    ensures IsTable(AfterBlock(t, keyword))
  {
  }

  /** The test `strlen(blockedKeywords[i]) > 0` matters: without it, a single free slot
      would match every content, since strstr finds the empty string everywhere. */
  lemma {:induction false} FreeSlotWouldMatchAll(t: seq<string>, content: string)
    requires exists j :: 0 <= j < |t| && t[j] == ""
    ensures exists j :: 0 <= j < |t| && Contains(content, t[j])
  {
    var j :| 0 <= j < |t| && t[j] == "";
    ContainsEmpty(content);
    assert Contains(content, t[j]);
  }

  /** Once a non-empty keyword is stored, any content holding it is reported as blocked,
      by that keyword or by one in a lower slot. */
  lemma {:induction false} BlockThenMatch(t: seq<string>, keyword: string, content: string)
    requires FirstEmpty(t).Some? && keyword != "" && Occurs(content, keyword)
    ensures FirstMatch(AfterBlock(t, keyword), content).Some?
    ensures FirstMatch(AfterBlock(t, keyword), content).value <= FirstEmpty(t).value
  {
    var i := FirstEmpty(t).value;
    var u := AfterBlock(t, keyword);
    assert u[i] == keyword;
  }

  /** isBlocked on a table with every slot free reports nothing. */
  lemma EmptyTableMatchesNothing(content: string)
    ensures FirstMatch(EmptyTable(), content) == None
    ensures MatchedKeyword(EmptyTable(), content) == None
  {
  }

  class Blocklist {
    /** The slots of blockedKeywords, each holding the C string stored there. */
    var slots: array<string>

    ghost predicate Valid()
      reads this, slots
    {
      IsTable(slots[..])
    }

    ghost function Table(): seq<string>
      reads this, slots
    {
      slots[..]
    }

    /** The declaration in main followed by unblockAll (proxy.c:205-206). */
    constructor ()
      ensures Valid() && fresh(slots) && Table() == EmptyTable()
    {
      slots := new string[MAX_BLOCKED_KEYWORDS];
      new;
      UnblockAll();
    }

    /** block: strcpy the keyword into the first slot whose strlen is 0. */
    method Block(keyword: string) returns (added: bool)
      requires Valid() && NUL !in keyword
      requires FirstEmpty(Table()).Some? ==> |keyword| < MAX_KEYWORD_SIZE
      modifies slots
      ensures Valid()
      ensures added == FirstEmpty(old(Table())).Some?
      ensures Table() == AfterBlock(old(Table()), keyword)
    {
      var i := 0;
      while i < MAX_BLOCKED_KEYWORDS
        invariant 0 <= i <= MAX_BLOCKED_KEYWORDS
        invariant forall j :: 0 <= j < i ==> slots[j] != ""
        invariant slots[..] == old(slots[..])
      {
        if |slots[i]| == 0 {
          BlockFillsLowestEmpty(slots[..], keyword, i);
          slots[i] := keyword;
          return true;
        }
        i := i + 1;
      }
      BlockFullUnchanged(slots[..], keyword);
      return false;
    }

    /** unblockAll: memset every slot to zero. */
    method UnblockAll()
      requires slots.Length == MAX_BLOCKED_KEYWORDS
      modifies slots
      ensures Valid() && Table() == EmptyTable()
      ensures old(Table()) == EmptyTable() ==> Table() == old(Table())
    {
      var i := 0;
      while i < MAX_BLOCKED_KEYWORDS
        invariant 0 <= i <= MAX_BLOCKED_KEYWORDS
        invariant forall j :: 0 <= j < i ==> slots[j] == ""
      {
        slots[i] := "";
        i := i + 1;
      }
    }

    /** isBlocked: the first occupied slot, by index, that strstr finds in `content`. */
    method IsBlocked(content: string) returns (r: Option<string>)
      requires Valid()
      ensures r == MatchedKeyword(Table(), content)
      ensures r.Some? ==> r.value != "" && Occurs(content, r.value) && r.value in Table()
      ensures r.None? <==> forall j :: 0 <= j < MAX_BLOCKED_KEYWORDS ==> slots[j] == "" || !Occurs(content, slots[j])
    {
      var i := 0;
      while i < MAX_BLOCKED_KEYWORDS
        invariant 0 <= i <= MAX_BLOCKED_KEYWORDS
        invariant forall j :: 0 <= j < i ==> slots[j] == "" || !Occurs(content, slots[j])
      {
        if |slots[i]| > 0 && Contains(content, slots[i]) {
          assert slots[..][i] != "" && Occurs(content, slots[..][i]);
          return Some(slots[i]);
        }
        i := i + 1;
      }
      return None;
    }
  }
}
