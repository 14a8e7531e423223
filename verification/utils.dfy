/**
 The pure helpers of the client library: the growth colour, the stock-status badge
 and the e-mail check `/^[^\s@]+@[^\s@]+\.[^\s@]+$/`.
 */
module Utils {
  import opened JsValues

  // ---------------------------------------------------------------- growth colour

  const GreenText: string := "text-green-500"
  const RedText: string := "text-red-500"

  /** `getGrowthClass`: green for a non-negative growth, red otherwise. */
  function GrowthClass(growth: int): (r: string)
    ensures r == GreenText <==> growth >= 0
    ensures r == RedText <==> growth < 0
  {
    if growth >= 0 then GreenText else RedText
  }

  // ---------------------------------------------------------------- stock status

  const UnlimitedLabel: string := "Unlimited"
  const OutOfStockLabel: string := "Out of Stock"
  const LowStockLabel: string := "Low Stock"
  const InStockLabel: string := "In Stock"

  const GreenBadge: string := "bg-green-100 text-green-800"
  const RedBadge: string := "bg-red-100 text-red-800"
  const YellowBadge: string := "bg-yellow-100 text-yellow-800"

  /** The badge `{ label, colorClass }`; the field `text` is the source's `label`, a word
      Dafny reserves. */
  datatype StockStatus = StockStatus(text: string, colorClass: string)

  /** `getPrizeStockStatus`: null stock is unlimited, stock at or below 0 is out of stock,
      1 to 9 is low and 10 or more is in stock. */
  function PrizeStockStatus(stock: Option<int>): (r: StockStatus)
    ensures r.text == UnlimitedLabel <==> stock.None?
    ensures r.text == OutOfStockLabel <==> stock.Some? && stock.value <= 0
    ensures r.text == LowStockLabel <==> stock.Some? && 1 <= stock.value <= 9
    ensures r.text == InStockLabel <==> stock.Some? && stock.value >= 10
    ensures r.colorClass == GreenBadge <==> r.text == UnlimitedLabel || r.text == InStockLabel
    ensures r.colorClass == RedBadge <==> r.text == OutOfStockLabel
    ensures r.colorClass == YellowBadge <==> r.text == LowStockLabel
  {
    if stock.None? then StockStatus(UnlimitedLabel, GreenBadge)
    else if stock.value <= 0 then StockStatus(OutOfStockLabel, RedBadge)
    else if stock.value < 10 then StockStatus(LowStockLabel, YellowBadge)
    else StockStatus(InStockLabel, GreenBadge)
  }

  /** Every stock gets one of the four labels. */
  lemma StockStatusTotal(stock: Option<int>)
    ensures PrizeStockStatus(stock).text in {UnlimitedLabel, OutOfStockLabel, LowStockLabel, InStockLabel}
  {
  }

  // ---------------------------------------------------------------- e-mail

  /** JavaScript's `\s`: the ECMAScript white space and line terminators. */
  predicate IsJsSpace(c: char) {
    var n := c as int;
    || 0x09 <= n <= 0x0D || n == 0x20 || n == 0xA0 || n == 0x1680
    || 0x2000 <= n <= 0x200A || n == 0x2028 || n == 0x2029 || n == 0x202F
    || n == 0x205F || n == 0x3000 || n == 0xFEFF
  }

  /** The class `[^\s@]`. */
  predicate Plain(c: char) {
    !IsJsSpace(c) && c != '@'
  }

  predicate AllPlain(s: string) {
    forall i :: 0 <= i < |s| ==> Plain(s[i])
  }

  /** The regular expression as a split of `s` at the `@` (position `at`) and at the `.`
      (position `dot`) that the two `+` groups around it leave between them. */
  predicate EmailSplit(s: string, at: nat, dot: nat) {
    && 0 < at && at + 1 < dot && dot + 1 < |s|
    && s[at] == '@' && s[dot] == '.'
    && AllPlain(s[..at]) && AllPlain(s[at + 1..dot]) && AllPlain(s[dot + 1..])
  }

  /** `/^[^\s@]+@[^\s@]+\.[^\s@]+$/.test(s)`. */
  ghost predicate MatchesEmailPattern(s: string) {
    exists at: nat, dot: nat :: EmailSplit(s, at, dot)
  }

  /** The first position holding `c`. */
  function FirstIndexOf(s: string, c: char): (r: Option<nat>)
    ensures r.Some? ==> r.value < |s| && s[r.value] == c
    ensures r.Some? ==> forall j :: 0 <= j < r.value ==> s[j] != c
    ensures r.None? ==> forall j :: 0 <= j < |s| ==> s[j] != c
  {
    if |s| == 0 then None
    else if s[0] == c then Some(0)
    else
      match FirstIndexOf(s[1..], c)
      case None => None
      case Some(k) => Some(k + 1)
  }

  /** The first `c` is at `k` when `s[k]` is one and no earlier character is. */
  lemma FirstIndexOfIs(s: string, c: char, k: nat)
    requires k < |s| && s[k] == c && forall j :: 0 <= j < k ==> s[j] != c
    ensures FirstIndexOf(s, c) == Some(k)
  {
  }

  /** A `.` with at least one character before and after it. */
  predicate HasInteriorDot(d: string) {
    exists k :: 1 <= k < |d| - 1 && d[k] == '.'
  }

  /** `validateEmail`, checked piece by piece: no white space anywhere, a first `@` after a
      non-empty local part, no second `@`, and a `.` inside the domain. */
  function ValidateEmail(s: string): (r: bool)
    ensures r ==> |s| >= 5
    ensures r ==> forall i :: 0 <= i < |s| ==> !IsJsSpace(s[i])
    ensures r ==> '@' in s
  {
    match FirstIndexOf(s, '@')
    case None => false
    case Some(at) =>
      && at > 0
      && (forall i :: 0 <= i < |s| ==> !IsJsSpace(s[i]))
      && (forall i :: at < i < |s| ==> s[i] != '@')
      && HasInteriorDot(s[at + 1..])
  }

  /** Whatever the piecewise check accepts, the regular expression matches. */
  lemma ValidateEmailSound(s: string)
    requires ValidateEmail(s)
    ensures MatchesEmailPattern(s)
  {
    var at := FirstIndexOf(s, '@').value;
    var d := s[at + 1..];
    var k :| 1 <= k < |d| - 1 && d[k] == '.';
    var dot := at + 1 + k;
    assert s[dot] == '.';
    var local, host, tld := s[..at], s[at + 1..dot], s[dot + 1..];
    assert AllPlain(local) by {
      forall i | 0 <= i < |local| ensures Plain(local[i]) { assert local[i] == s[i]; }
    }
    assert AllPlain(host) by {
      forall i | 0 <= i < |host| ensures Plain(host[i]) { assert host[i] == s[at + 1 + i]; }
    }
    assert AllPlain(tld) by {
      forall i | 0 <= i < |tld| ensures Plain(tld[i]) { assert tld[i] == s[dot + 1 + i]; }
    }
    assert EmailSplit(s, at, dot);
  }

  /** Whatever the regular expression matches, the piecewise check accepts. */
  lemma ValidateEmailComplete(s: string)
    requires MatchesEmailPattern(s)
    ensures ValidateEmail(s)
  {
    var at: nat, dot: nat :| EmailSplit(s, at, dot);
    var local, host, tld := s[..at], s[at + 1..dot], s[dot + 1..];
    assert forall i :: 0 <= i < at ==> local[i] == s[i];
    assert forall i :: at < i < dot ==> host[i - at - 1] == s[i];
    assert forall i :: dot < i < |s| ==> tld[i - dot - 1] == s[i];
    FirstIndexOfIs(s, '@', at);
    assert s[at + 1..][dot - at - 1] == '.';
  }

  /** The piecewise check accepts exactly the strings the regular expression matches. */
  lemma ValidateEmailIsPattern(s: string)
    ensures ValidateEmail(s) <==> MatchesEmailPattern(s)
  {
    if ValidateEmail(s) { ValidateEmailSound(s); }
    if MatchesEmailPattern(s) { ValidateEmailComplete(s); }
  }

  /** `at` holds the only `@` of `s`, with something before it. */
  ghost predicate SoleAt(s: string, at: int) {
    0 < at < |s| && s[at] == '@' && forall j :: 0 <= j < |s| && s[j] == '@' ==> j == at
  }

  /** A `.` after position `at + 1` that is not the last character. */
  ghost predicate DotAfter(s: string, at: int) {
    exists dot :: 0 <= dot < |s| - 1 && at + 1 < dot && s[dot] == '.'
  }

  /** The same condition in words: no white space, exactly one `@`, a non-empty part before
      it, and a `.` in the part after it with a character on each side. */
  lemma ValidateEmailConditions(s: string)
    ensures ValidateEmail(s) <==>
      (forall i :: 0 <= i < |s| ==> !IsJsSpace(s[i])) && exists at :: SoleAt(s, at) && DotAfter(s, at)
  {
    if ValidateEmail(s) {
      var at := FirstIndexOf(s, '@').value;
      var k :| 1 <= k < |s[at + 1..]| - 1 && s[at + 1..][k] == '.';
      assert s[at + 1 + k] == '.';
      assert SoleAt(s, at) && DotAfter(s, at);
    }
    if exists at :: SoleAt(s, at) && DotAfter(s, at) {
      var at :| SoleAt(s, at) && DotAfter(s, at);
      var dot :| 0 <= dot < |s| - 1 && at + 1 < dot && s[dot] == '.';
      FirstIndexOfIs(s, '@', at);
      assert s[at + 1..][dot - at - 1] == '.';
    }
  }

  /** The shortest accepted address. */
  lemma ShortEmailAccepted()
    ensures ValidateEmail("a@b.c")
  {
    var short := "a@b.c";
    FirstIndexOfIs(short, '@', 1);
    assert short[2..][1] == '.';
  }

  /** Dots are allowed before the `@` and in several places after it. */
  lemma DottedEmailAccepted()
    ensures ValidateEmail("x.y@m.co")
  {
    var e := "x.y@m.co";
    FirstIndexOfIs(e, '@', 3);
    assert e[4..][1] == '.';
  }

  /** Three rejected addresses: no dot after the `@`, a space, a second `@`. */
  lemma EmailRejected()
    ensures !ValidateEmail("a@b")
    ensures !ValidateEmail("a b@c.d")
    ensures !ValidateEmail("a@b@c.d")
  {
    FirstIndexOfIs("a@b", '@', 1);
    FirstIndexOfIs("a b@c.d", '@', 3);
    assert IsJsSpace("a b@c.d"[1]);
    FirstIndexOfIs("a@b@c.d", '@', 1);
    assert "a@b@c.d"[3] == '@';
  }
}
