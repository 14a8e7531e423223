/**
 The admin users table: the case-insensitive search filter, the page arithmetic over
 pages of ten, and the Previous/Next enablement of the pager.
 */
module UsersTab {
  import opened JsValues

  // ---------------------------------------------------------------- search

  /** The fields of a user row the filter reads; `email` may be missing. */
  datatype UserRow = UserRow(username: string, email: Option<string>)

  /** `toLowerCase` on one character, for the ASCII letters. */
  function LowerChar(c: char): (r: char)
    ensures 'A' <= c <= 'Z' ==> r as int == c as int + 32
    ensures !('A' <= c <= 'Z') ==> r == c
  {
    if 'A' <= c <= 'Z' then (c as int + 32) as char else c
  }

  /** `toLowerCase` on a string: the same length, each character lowered. */
  function Lower(s: string): (r: string)
    ensures |r| == |s| && forall i :: 0 <= i < |s| ==> r[i] == LowerChar(s[i])
  {
    if |s| == 0 then [] else [LowerChar(s[0])] + Lower(s[1..])
  }

  /** `needle` occurs in `hay` starting at position `i`. */
  ghost predicate OccursAt(hay: string, needle: string, i: int) {
    0 <= i && i + |needle| <= |hay| && hay[i..i + |needle|] == needle
  }

  /** `hay.includes(needle)`, by trying each start position in turn. */
  function Includes(hay: string, needle: string): (r: bool)
    ensures |needle| == 0 ==> r
    ensures r ==> |needle| <= |hay|
    decreases |hay|
  {
    if |needle| <= |hay| && hay[..|needle|] == needle then true
    else if |hay| == 0 then false
    else Includes(hay[1..], needle)
  }

  /** `includes` holds exactly when `needle` occurs somewhere in `hay`. */
  lemma {:induction false} IncludesIffOccurs(hay: string, needle: string)
    ensures Includes(hay, needle) <==> exists i :: OccursAt(hay, needle, i)
    decreases |hay|
  {
    if |needle| <= |hay| && hay[..|needle|] == needle {
      assert OccursAt(hay, needle, 0);
    } else if |hay| == 0 {
      assert forall i :: !OccursAt(hay, needle, i);
    } else {
      IncludesIffOccurs(hay[1..], needle);
      if exists i :: OccursAt(hay[1..], needle, i) {
        var i :| OccursAt(hay[1..], needle, i);
        assert hay[1..][i..i + |needle|] == hay[i + 1..i + 1 + |needle|];
        assert OccursAt(hay, needle, i + 1);
      }
      if exists i :: OccursAt(hay, needle, i) {
        var i :| OccursAt(hay, needle, i);
        assert i != 0;
        assert hay[1..][i - 1..i - 1 + |needle|] == hay[i..i + |needle|];
        assert OccursAt(hay[1..], needle, i - 1);
      }
    }
  }

  /** The row test: the lowered username contains the lowered term, or the row has a
      non-empty e-mail whose lowered form contains it. */
  predicate Matches(u: UserRow, term: string) {
    || Includes(Lower(u.username), Lower(term))
    || (u.email.Some? && u.email.value != "" && Includes(Lower(u.email.value), Lower(term)))
  }

  /** `filteredUsers` over a loaded list, in its order. */
  function Filter(us: seq<UserRow>, term: string): (r: seq<UserRow>)
    ensures |r| <= |us|
    ensures forall u :: u in r <==> u in us && Matches(u, term)
  {
    if |us| == 0 then []
    else if Matches(us[0], term) then [us[0]] + Filter(us[1..], term)
    else Filter(us[1..], term)
  }

  /** `filteredUsers`: an empty list while the users have not loaded. */
  function FilteredUsers(users: Option<seq<UserRow>>, term: string): (r: seq<UserRow>)
    ensures users.None? ==> r == []
    ensures users.Some? ==> forall u :: u in r <==> u in users.value && Matches(u, term)
  {
    if users.Some? then Filter(users.value, term) else []
  }

  /** The filter keeps the order: filtering a concatenation concatenates the filtered parts. */
  lemma {:induction false} FilterAppend(a: seq<UserRow>, b: seq<UserRow>, term: string)
    ensures Filter(a + b, term) == Filter(a, term) + Filter(b, term)
  {
    if |a| > 0 {
      FilterAppend(a[1..], b, term);
      assert (a + b)[1..] == a[1..] + b;
    } else {
      assert a + b == b;
    }
  }

  /** Every row matches the empty term. */
  lemma EmptyTermMatches(u: UserRow)
    ensures Matches(u, "")
  {
    assert Lower("") == "";
  }

  /** An empty search term keeps every user. */
  lemma {:induction false} EmptyTermKeepsAll(us: seq<UserRow>)
    ensures Filter(us, "") == us
  {
    if |us| > 0 {
      EmptyTermMatches(us[0]);
      EmptyTermKeepsAll(us[1..]);
      assert [us[0]] + us[1..] == us;
    }
  }

  /** The search ignores ASCII case in the term. */
  lemma TermCaseIgnored(u: UserRow, term: string)
    ensures Matches(u, Lower(term)) == Matches(u, term)
  {
    assert Lower(Lower(term)) == Lower(term);
  }

  // ---------------------------------------------------------------- pages

  const PageSize: nat := 10

  /** `Math.ceil(n / pageSize)`: the fewest pages of ten that hold `n` users. */
  function TotalPages(n: nat): (r: nat)
    ensures r * PageSize >= n
    ensures r > 0 ==> (r - 1) * PageSize < n
    ensures r == 0 <==> n == 0
  {
    (n + PageSize - 1) / PageSize
  }

  /** A slice bound as `Array.prototype.slice` reads it: negative counts from the end,
      then clamped to [0, len]. */
  function SliceBound(k: int, len: nat): (r: nat)
    ensures r <= len
    ensures 0 <= k <= len ==> r == k
    ensures k > len ==> r == len
    ensures k < 0 ==> r == if len + k < 0 then 0 else len + k
  {
    if k < 0 then (if len + k < 0 then 0 else len + k)
    else if k > len then len
    else k
  }

  /** `s.slice(start, end)`. */
  function JsSlice<T>(s: seq<T>, start: int, end: int): (r: seq<T>)
    ensures |r| <= |s|
    ensures 0 <= start <= end <= |s| ==> r == s[start..end]
    ensures end <= start && (start >= 0) == (end >= 0) ==> r == []
    ensures var a, b := SliceBound(start, |s|), SliceBound(end, |s|);
      r == if a < b then s[a..b] else []
  {
    var a, b := SliceBound(start, |s|), SliceBound(end, |s|);
    if a < b then s[a..b] else []
  }

  /** `paginatedUsers`: the slice `((page - 1) * 10, page * 10)`. */
  function Page<T>(list: seq<T>, page: int): (r: seq<T>)
    ensures |r| <= PageSize
    ensures page >= 1 ==>
      var a := if (page - 1) * PageSize < |list| then (page - 1) * PageSize else |list|;
      var b := if page * PageSize < |list| then page * PageSize else |list|;
      r == list[a..b]
    ensures page == 0 ==> r == []
  {
    JsSlice(list, (page - 1) * PageSize, page * PageSize)
  }

  /** Pages `from` to `last`, one after another. */
  function PagesFrom<T>(list: seq<T>, from: nat, last: nat): seq<T>
    requires from >= 1
    decreases last + 1 - from
  {
    if from > last then [] else Page(list, from) + PagesFrom(list, from + 1, last)
  }

  /** Pages `from..last` together hold the list from position `(from - 1) * 10` on, once
      `last` pages cover the list. */
  lemma {:induction false} PagesFromCover<T>(list: seq<T>, from: nat, last: nat)
    requires from >= 1 && last * PageSize >= |list|
    requires (from - 1) * PageSize <= |list|
    ensures PagesFrom(list, from, last) == list[(from - 1) * PageSize..]
    decreases last + 1 - from
  {
    if from > last {
      assert (from - 1) * PageSize >= last * PageSize;
    } else if from * PageSize <= |list| {
      assert Page(list, from) == list[(from - 1) * PageSize..from * PageSize];
      PagesFromCover(list, from + 1, last);
      assert list[(from - 1) * PageSize..] == list[(from - 1) * PageSize..from * PageSize] + list[from * PageSize..];
    } else {
      assert Page(list, from) == list[(from - 1) * PageSize..];
      assert PagesFrom(list, from + 1, last) == [] by { PagesEmptyAfterEnd(list, from + 1, last); }
    }
  }

  /** Past the end of the list every page is empty. */
  lemma {:induction false} PagesEmptyAfterEnd<T>(list: seq<T>, from: nat, last: nat)
    requires from >= 1 && (from - 1) * PageSize >= |list|
    ensures PagesFrom(list, from, last) == []
    decreases last + 1 - from
  {
    if from <= last {
      PagesEmptyAfterEnd(list, from + 1, last);
    }
  }

  /** Pages 1 to `totalPages` concatenate back to the filtered list. */
  lemma PagesConcatenate<T>(list: seq<T>)
    ensures PagesFrom(list, 1, TotalPages(|list|)) == list
  {
    PagesFromCover(list, 1, TotalPages(|list|));
  }

  // ---------------------------------------------------------------- view state

  /** The component's state: the search term and the current page. */
  datatype View = View(term: string, page: int)

  /** The first render. */
  function InitialView(): View {
    View("", 1)
  }

  /** `handleSearch`: a new term always returns to page 1. */
  function HandleSearch(v: View, term: string): (r: View)
    ensures r.term == term && r.page == 1
  {
    View(term, 1)
  }

  /** `handlePageChange`: only the page changes. */
  function HandlePageChange(v: View, page: int): (r: View)
    ensures r.term == v.term && r.page == page
  {
    v.(page := page)
  }

  /** What the pager shows for `total` pages while on `current`. */
  datatype Pager = Pager(shown: bool, prevDisabled: bool, nextDisabled: bool, buttons: seq<int>)

  /** The pager: shown with more than one page, Previous disabled on page 1, Next disabled on
      the last page, and one button per page numbered from 1. */
  function PagerFor(total: nat, current: int): (r: Pager)
    ensures r.shown <==> total > 1
    ensures r.prevDisabled <==> current == 1
    ensures r.nextDisabled <==> current == total
    ensures |r.buttons| == total && forall i :: 0 <= i < total ==> r.buttons[i] == i + 1
  {
    Pager(total > 1, current == 1, current == total, seq(total, i => i + 1))
  }

  /** A click on the shown pager: Previous, Next, or a numbered button. */
  datatype Click = Prev | Next | Number(page: int)

  /** The page a click leads to, or none when the clicked control is disabled or absent. */
  function ClickPage(total: nat, current: int, c: Click): Option<int> {
    var pager := PagerFor(total, current);
    if !pager.shown then None
    else match c
      case Prev => if pager.prevDisabled then None else Some(current - 1)
      case Next => if pager.nextDisabled then None else Some(current + 1)
      case Number(p) => if p in pager.buttons then Some(p) else None
  }

  /** From a page in range, every enabled click lands on a page in range, and Previous and
      Next move by exactly one. */
  lemma ClicksStayInRange(total: nat, current: int, c: Click)
    requires 1 <= current <= total
    ensures var next := ClickPage(total, current, c);
      && (next.Some? ==> 1 <= next.value <= total)
      && (c.Prev? && next.Some? ==> next.value == current - 1)
      && (c.Next? && next.Some? ==> next.value == current + 1)
      && (total > 1 && c.Prev? ==> (next.Some? <==> current > 1))
      && (total > 1 && c.Next? ==> (next.Some? <==> current < total))
  {
    if c.Number? && ClickPage(total, current, c).Some? {
      var i :| 0 <= i < |PagerFor(total, current).buttons| && PagerFor(total, current).buttons[i] == c.page;
    }
  }

  /** The first render, before any search, shows the first ten users in their order. */
  lemma FirstRenderShowsFirstTen(users: seq<UserRow>)
    ensures var v := InitialView();
      Page(FilteredUsers(Some(users), v.term), v.page) == users[..if |users| < PageSize then |users| else PageSize]
  {
    EmptyTermKeepsAll(users);
  }

  /** The page shown after any search holds the first ten matching users. */
  lemma SearchShowsFirstPage(v: View, users: seq<UserRow>, term: string)
    ensures var list := FilteredUsers(Some(users), term);
      Page(list, HandleSearch(v, term).page) == list[..if |list| < PageSize then |list| else PageSize]
  {
  }
}
