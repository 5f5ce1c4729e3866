/**
 * The string and collection helpers of lib/utils.ts: `capitalize`,
 * `truncate`, `slugify`, `isValidEmail`, the "HH:MM" fast path of
 * `formatTime`, `groupBy`, `unique`, `omit` and `pick`.  Objects are
 * records of entries in insertion order; case mapping is ASCII.
 */
module Utils {

  import opened Wrappers
  import opened Strings
  import opened Records
  import MeetupUtils

  // ---------------------------------------------------------------------------
  // capitalize, truncate

  /** `str.charAt(0).toUpperCase() + str.slice(1)`. */
  function Capitalize(s: string): (r: string)
    ensures |r| == |s|
    ensures s != "" ==> r[0] == UpperChar(s[0]) && r[1..] == s[1..]
  {
    if s == "" then "" else ToUpper(s[..1]) + s[1..]
  }

  /** Capitalizing twice is capitalizing once. */
  lemma CapitalizeIdempotent(s: string)
    ensures Capitalize(Capitalize(s)) == Capitalize(s)
  {
    if s != "" {
      var r := Capitalize(s);
      assert Capitalize(r)[0] == UpperChar(UpperChar(s[0])) == UpperChar(s[0]);
      assert Capitalize(r) == [Capitalize(r)[0]] + Capitalize(r)[1..];
      assert r == [r[0]] + r[1..];
    }
  }

  /** `str.substring(0, n)`: a negative end counts as 0, one past the end as the length. */
  function Substring(s: string, n: int): (r: string)
    ensures |r| == if n < 0 then 0 else if n > |s| then |s| else n
    ensures StartsWith(s, r)
  {
    if n < 0 then "" else if n > |s| then s else s[..n]
  }

  /** `truncate(str, length)`. */
  function Truncate(s: string, n: int): (r: string)
    ensures |s| > n ==> r == Substring(s, n) + "..."
    ensures |s| <= n ==> r == s
  {
    if |s| > n then Substring(s, n) + "..." else s
  }

  /**
   * A truncated string is the first `n` characters followed by the
   * ellipsis, so it is at most three characters longer than `n` and begins
   * with a prefix of the input.
   */
  lemma TruncateShape(s: string, n: nat)
    ensures |Truncate(s, n)| <= if |s| > n then n + 3 else |s|
    ensures StartsWith(Truncate(s, n), if |s| > n then s[..n] else s)
  {
    var r := Truncate(s, n);
    if |s| > n {
      assert r[..n] == s[..n];
    } else {
      assert r[..|s|] == s;
    }
  }

  /** A second truncation to the same length changes nothing once the result fits. */
  lemma TruncateFits(s: string, n: nat)
    requires |s| <= n
    ensures Truncate(s, n) == s
  {
  }

  // ---------------------------------------------------------------------------
  // slugify

  /** `\w`: an ASCII letter, digit or '_'. */
  predicate IsWordChar(c: char) {
    IsAsciiUpper(c) || IsAsciiLower(c) || IsDigit(c) || c == '_'
  }

  /** `[\s_-]`: the characters a run of which becomes one '-'. */
  predicate IsSeparator(c: char) {
    IsWhitespace(c) || c == '_' || c == '-'
  }

  /** The characters a slug is made of. */
  predicate IsSlugChar(c: char) {
    IsAsciiLower(c) || IsDigit(c) || c == '-'
  }

  /** No two dashes in a row. */
  predicate NoDoubleDash(t: string) {
    forall i :: 0 <= i < |t| - 1 ==> !(t[i] == '-' && t[i + 1] == '-')
  }

  /** `.replace(/[^\w\s-]/g, "")`: drops every other character. */
  function KeepWordSpaceDash(s: string): (r: string)
    ensures |r| <= |s|
    ensures forall i :: 0 <= i < |r| ==> IsWordChar(r[i]) || IsWhitespace(r[i]) || r[i] == '-'
    ensures (forall i :: 0 <= i < |s| ==> !IsAsciiUpper(s[i])) ==> forall i :: 0 <= i < |r| ==> !IsAsciiUpper(r[i])
  {
    if s == [] then []
    else (if IsWordChar(s[0]) || IsWhitespace(s[0]) || s[0] == '-' then [s[0]] else []) + KeepWordSpaceDash(s[1..])
  }

  /** The text after the run of separators `s` starts with. */
  function DropSeparators(s: string): (r: string)
    ensures |r| <= |s| && r == s[|s| - |r|..]
    ensures forall c :: c in r ==> c in s
    ensures r == [] || !IsSeparator(r[0])
    ensures s != [] && IsSeparator(s[0]) ==> |r| < |s|
  {
    if s != [] && IsSeparator(s[0]) then DropSeparators(s[1..]) else s
  }

  /** `.replace(/[\s_-]+/g, "-")`: every maximal run of separators becomes one '-'. */
  function CollapseSeparators(s: string): string
    decreases |s|
  {
    if s == [] then []
    else if IsSeparator(s[0]) then "-" + CollapseSeparators(DropSeparators(s))
    else [s[0]] + CollapseSeparators(s[1..])
  }

  /** A collapsed string starts with '-' exactly when the input starts with a separator. */
  lemma CollapseHead(s: string)
    ensures s == [] <==> CollapseSeparators(s) == []
    ensures s != [] ==> (CollapseSeparators(s)[0] == '-' <==> IsSeparator(s[0]))
  {
  }

  /**
   * Collapsing lower-case letters, digits and separators leaves only slug
   * characters: the letters and digits, and a '-' per run of separators.
   */
  lemma {:induction false} CollapseChars(s: string)
    requires forall c :: c in s ==> IsAsciiLower(c) || IsDigit(c) || IsSeparator(c)
    ensures forall c :: c in CollapseSeparators(s) ==> IsSlugChar(c)
    decreases |s|
  {
    if s != [] {
      var rest := if IsSeparator(s[0]) then DropSeparators(s) else s[1..];
      assert forall c :: c in rest ==> c in s;
      CollapseChars(rest);
    }
  }

  /** Putting a character before a string without doubled dashes keeps it so, unless both are dashes. */
  lemma ConsNoDoubleDash(h: char, tail: string)
    requires NoDoubleDash(tail)
    requires tail == [] || h != '-' || tail[0] != '-'
    ensures NoDoubleDash([h] + tail)
  {
    var r := [h] + tail;
    forall i | 0 <= i < |r| - 1 ensures !(r[i] == '-' && r[i + 1] == '-') {
      assert r[i + 1] == tail[i];
      if i > 0 {
        assert r[i] == tail[i - 1];
      }
    }
  }

  /** A collapsed string never has two dashes in a row. */
  lemma {:induction false} CollapseNoDoubleDash(s: string)
    ensures NoDoubleDash(CollapseSeparators(s))
    decreases |s|
  {
    if s != [] {
      var rest := if IsSeparator(s[0]) then DropSeparators(s) else s[1..];
      CollapseNoDoubleDash(rest);
      CollapseHead(rest);
      var h := if IsSeparator(s[0]) then '-' else s[0];
      assert CollapseSeparators(s) == [h] + CollapseSeparators(rest);
      ConsNoDoubleDash(h, CollapseSeparators(rest));
    }
  }

  function DropLeadingDashes(s: string): (r: string)
    ensures |r| <= |s| && r == s[|s| - |r|..]
    ensures r == [] || r[0] != '-'
  {
    if s != [] && s[0] == '-' then DropLeadingDashes(s[1..]) else s
  }

  function DropTrailingDashes(s: string): (r: string)
    ensures |r| <= |s| && r == s[..|r|]
    ensures r == [] || r[|r| - 1] != '-'
  {
    if s != [] && s[|s| - 1] == '-' then DropTrailingDashes(s[..|s| - 1]) else s
  }

  /** `.replace(/^-+|-+$/g, "")`. */
  function StripDashes(s: string): string {
    DropTrailingDashes(DropLeadingDashes(s))
  }

  /** `slugify(str)`. */
  function Slugify(s: string): (r: string)
    ensures r == [] || (r[0] != '-' && r[|r| - 1] != '-')
  {
    StripDashes(CollapseSeparators(KeepWordSpaceDash(ToLower(s))))
  }

  /** A slug: slug characters only, no '-' at either end and no two in a row. */
  predicate IsSlug(t: string) {
    && (forall i :: 0 <= i < |t| ==> IsSlugChar(t[i]))
    && (t == [] || (t[0] != '-' && t[|t| - 1] != '-'))
    && NoDoubleDash(t)
  }

  /** After lower-casing and filtering, only lower-case letters, digits and separators remain. */
  lemma KeptChars(s: string)
    ensures forall c :: c in KeepWordSpaceDash(ToLower(s)) ==> IsAsciiLower(c) || IsDigit(c) || IsSeparator(c)
  {
    var a := ToLower(s);
    assert forall i :: 0 <= i < |a| ==> !IsAsciiUpper(a[i]);
  }

  /** Stripping the end dashes of dash-separated slug characters leaves a slug. */
  lemma StripGivesSlug(c: string)
    requires forall x :: x in c ==> IsSlugChar(x)
    requires NoDoubleDash(c)
    ensures IsSlug(StripDashes(c))
  {
    var d := DropLeadingDashes(c);
    var e := DropTrailingDashes(d);
    var off := |c| - |d|;
    forall i | 0 <= i < |e| ensures IsSlugChar(e[i]) && (i < |e| - 1 ==> !(e[i] == '-' && e[i + 1] == '-')) {
      assert e[i] == d[i] == c[off + i];
      assert c[off + i] in c;
      if i < |e| - 1 {
        assert e[i + 1] == d[i + 1] == c[off + i + 1];
      }
    }
  }

  /** Every `slugify` result is a slug. */
  lemma SlugifyIsSlug(s: string)
    ensures IsSlug(Slugify(s))
  {
    var b := KeepWordSpaceDash(ToLower(s));
    KeptChars(s);
    CollapseChars(b);
    CollapseNoDoubleDash(b);
    var c := CollapseSeparators(b);
    assert forall x :: x in c ==> IsSlugChar(x);
    StripGivesSlug(c);
  }

  /** The tail of a run of slug characters without doubled dashes is one too. */
  lemma SlugCharsTail(t: string)
    requires t != []
    requires forall i :: 0 <= i < |t| ==> IsSlugChar(t[i])
    requires NoDoubleDash(t)
    ensures forall i :: 0 <= i < |t| - 1 ==> IsSlugChar(t[1..][i])
    ensures NoDoubleDash(t[1..])
    ensures |t| == 1 || t[0] != '-' || !IsSeparator(t[1])
  {
    var tail := t[1..];
    assert forall i :: 0 <= i < |tail| ==> tail[i] == t[i + 1];
  }

  /** One step of the collapse on a text whose first run of separators is a single slug character. */
  lemma CollapseStep(t: string)
    requires t != [] && IsSlugChar(t[0])
    requires |t| == 1 || t[0] != '-' || !IsSeparator(t[1])
    ensures CollapseSeparators(t) == [t[0]] + CollapseSeparators(t[1..])
  {
    if IsSeparator(t[0]) {
      SeparatorSlugCharIsDash(t[0]);
      var tail := t[1..];
      assert tail == [] || !IsSeparator(tail[0]);
      assert DropSeparators(tail) == tail;
      assert DropSeparators(t) == tail;
    }
  }

  /** The only slug character that is also a separator is '-'. */
  lemma SeparatorSlugCharIsDash(c: char)
    requires IsSlugChar(c) && IsSeparator(c)
    ensures c == '-'
  {
  }

  /** Collapsing leaves a dash-separated run of slug characters as it is. */
  lemma {:induction false} CollapseOfSlugChars(t: string)
    requires forall i :: 0 <= i < |t| ==> IsSlugChar(t[i])
    requires NoDoubleDash(t)
    ensures CollapseSeparators(t) == t
    decreases |t|
  {
    if t != [] {
      var tail := t[1..];
      SlugCharsTail(t);
      CollapseOfSlugChars(tail);
      CollapseStep(t);
      assert t == [t[0]] + tail;
    }
  }

  lemma {:induction false} KeepOfSlugChars(t: string)
    requires forall i :: 0 <= i < |t| ==> IsSlugChar(t[i])
    ensures KeepWordSpaceDash(t) == t
  {
    if t != [] {
      KeepOfSlugChars(t[1..]);
    }
  }

  /** A slug is its own slug. */
  lemma SlugFixed(t: string)
    requires IsSlug(t)
    ensures Slugify(t) == t
  {
    assert ToLower(t) == t;
    KeepOfSlugChars(t);
    CollapseOfSlugChars(t);
  }

  /** `slugify` is idempotent. */
  lemma SlugifyIdempotent(s: string)
    ensures Slugify(Slugify(s)) == Slugify(s)
  {
    SlugifyIsSlug(s);
    SlugFixed(Slugify(s));
  }

  // ---------------------------------------------------------------------------
  // isValidEmail

  /** `[^\s@]+`: non-empty, without whitespace and without '@'. */
  predicate EmailPart(p: string) {
    p != [] && forall i :: 0 <= i < |p| ==> !IsWhitespace(p[i]) && p[i] != '@'
  }

  /**
   * `/^[^\s@]+@[^\s@]+\.[^\s@]+$/.test(email)`: the address splits as a part,
   * '@', a part, '.', a part.
   */
  predicate IsValidEmail(e: string)
    ensures IsValidEmail(e) ==> |e| >= 5 && '@' in e && '.' in e
  {
    exists at, dot :: 0 <= at < dot < |e| && e[at] == '@' && e[dot] == '.'
      && EmailPart(e[..at]) && EmailPart(e[at + 1..dot]) && EmailPart(e[dot + 1..])
  }

  /** The same test stated clause by clause. */
  predicate EmailClauses(e: string) {
    && (forall i :: 0 <= i < |e| ==> !IsWhitespace(e[i]))
    && (exists at :: 0 <= at < |e| && e[at] == '@')
    && (forall i, j :: 0 <= i < |e| && 0 <= j < |e| && e[i] == '@' && e[j] == '@' ==> i == j)
    && (forall at :: 0 <= at < |e| && e[at] == '@' ==> at > 0 && exists dot :: at + 1 < dot < |e| - 1 && e[dot] == '.')
  }

  /**
   * An address is valid exactly when it has no whitespace, exactly one '@'
   * with something before it, and a '.' in the domain that is neither its
   * first nor its last character.
   */
  lemma EmailIffClauses(e: string)
    ensures IsValidEmail(e) <==> EmailClauses(e)
  {
    if IsValidEmail(e) {
      var at, dot :| 0 <= at < dot < |e| && e[at] == '@' && e[dot] == '.'
        && EmailPart(e[..at]) && EmailPart(e[at + 1..dot]) && EmailPart(e[dot + 1..]);
      SplitGivesClauses(e, at, dot);
    }
    if EmailClauses(e) {
      ClausesGiveSplit(e);
    }
  }

  /** A split of the address into the three parts gives each clause. */
  lemma SplitGivesClauses(e: string, at: nat, dot: nat)
    requires at < dot < |e| && e[at] == '@' && e[dot] == '.'
    requires EmailPart(e[..at]) && EmailPart(e[at + 1..dot]) && EmailPart(e[dot + 1..])
    ensures EmailClauses(e)
  {
    forall i | 0 <= i < |e| && i != at ensures !IsWhitespace(e[i]) && e[i] != '@' {
      if i < at {
        assert e[..at][i] == e[i];
      } else if i < dot {
        assert e[at + 1..dot][i - at - 1] == e[i];
      } else if i > dot {
        assert e[dot + 1..][i - dot - 1] == e[i];
      }
    }
    assert at + 1 < dot < |e| - 1;
  }

  /** The clauses give a split of the address into the three parts. */
  lemma ClausesGiveSplit(e: string)
    requires EmailClauses(e)
    ensures IsValidEmail(e)
  {
    var at :| 0 <= at < |e| && e[at] == '@';
    var dot :| at + 1 < dot < |e| - 1 && e[dot] == '.';
    forall i | 0 <= i < |e| && i != at ensures e[i] != '@' {
    }
    assert EmailPart(e[..at]);
    assert EmailPart(e[at + 1..dot]);
    assert EmailPart(e[dot + 1..]);
  }

  /** Two '@' are never valid. */
  lemma TwoAtsInvalid(e: string, i: nat, j: nat)
    requires i < j < |e| && e[i] == '@' && e[j] == '@'
    ensures !IsValidEmail(e)
  {
    EmailIffClauses(e);
  }

  // ---------------------------------------------------------------------------
  // formatTime

  /** `/^\d{1,2}:\d{2}$/.test(s)`. */
  predicate IsHourMinute(s: string) {
    || (|s| == 4 && IsDigit(s[0]) && s[1] == ':' && IsDigit(s[2]) && IsDigit(s[3]))
    || (|s| == 5 && IsDigit(s[0]) && IsDigit(s[1]) && s[2] == ':' && IsDigit(s[3]) && IsDigit(s[4]))
  }

  /**
   * The first branch of `formatTime`: an "H:MM" or "HH:MM" string is
   * returned as it is; `None` stands for the `Date`/`Intl` branch.
   */
  function FormatTimeFastPath(s: string): (r: Option<string>)
    ensures r.Some? <==> IsHourMinute(s)
    ensures r.Some? ==> r.value == s
  {
    if IsHourMinute(s) then Some(s) else None
  }

  /** A time the fast path accepts has the hour and minute the status classifier reads from it. */
  lemma FastPathTimesParse(s: string)
    requires IsHourMinute(s)
    ensures MeetupUtils.HourMinute(s).Some?
  {
    var k := if |s| == 4 then 1 else 2;
    var hs, ms := s[..k], s[k + 1..];
    assert s == hs + ":" + ms;
    MeetupUtils.HourMinuteOfDigits(s, hs, ms);
  }

  // ---------------------------------------------------------------------------
  // unique

  /**
   * `[...new Set(array)]`: each element once, in the order of its first
   * occurrence.
   */
  function Unique<T(==)>(a: seq<T>): (r: seq<T>)
    ensures |r| <= |a|
    ensures a != [] ==> r != [] && r[0] == a[0]
  {
    if a == [] then []
    else
      var init := a[..|a| - 1];
      Unique(init) + (if a[|a| - 1] in init then [] else [a[|a| - 1]])
  }

  /** `unique` keeps exactly the elements of its input. */
  lemma {:induction false} UniqueElements<T>(a: seq<T>)
    ensures forall x :: x in Unique(a) <==> x in a
  {
    if a != [] {
      var init := a[..|a| - 1];
      UniqueElements(init);
      assert a == init + [a[|a| - 1]];
    }
  }

  /** `unique` never repeats an element. */
  lemma {:induction false} UniqueNoDuplicates<T>(a: seq<T>)
    ensures NoDuplicates(Unique(a))
  {
    if a != [] {
      var init := a[..|a| - 1];
      UniqueNoDuplicates(init);
      UniqueElements(init);
    }
  }

  /** An input without repeats comes back as it is. */
  lemma {:induction false} UniqueOfDistinct<T>(a: seq<T>)
    requires NoDuplicates(a)
    ensures Unique(a) == a
  {
    if a != [] {
      var init := a[..|a| - 1];
      assert NoDuplicates(init) by {
        forall i, j | 0 <= i < j < |init| ensures init[i] != init[j] {
          assert init[i] == a[i] && init[j] == a[j];
        }
      }
      UniqueOfDistinct(init);
      assert a[|a| - 1] !in init by {
        forall i | 0 <= i < |init| ensures init[i] != a[|a| - 1] {
          assert init[i] == a[i];
        }
      }
      assert a == init + [a[|a| - 1]];
    }
  }

  /**
   * Order of first occurrence: what `unique` returns for a prefix is a
   * prefix of what it returns for the whole.
   */
  lemma {:induction false} UniquePrefix<T>(a: seq<T>, b: seq<T>)
    ensures Unique(a) <= Unique(a + b)
    decreases |b|
  {
    if b != [] {
      var ab := a + b;
      var init := ab[..|ab| - 1];
      assert init == a + b[..|b| - 1];
      UniquePrefix(a, b[..|b| - 1]);
    } else {
      assert a + b == a;
    }
  }

  // ---------------------------------------------------------------------------
  // groupBy

  /** `String(item[key])` for every item, in order. */
  function KeysOf<T>(a: seq<T>, keyOf: T -> string): (ks: seq<string>)
    ensures |ks| == |a| && forall i :: 0 <= i < |a| ==> ks[i] == keyOf(a[i])
  {
    seq(|a|, i requires 0 <= i < |a| => keyOf(a[i]))
  }

  /** The items whose key is `k`, in order. */
  function ItemsWithKey<T>(a: seq<T>, keyOf: T -> string, k: string): (r: seq<T>)
    ensures r == [] <==> k !in KeysOf(a, keyOf)
  {
    if a == [] then []
    else
      var init := a[..|a| - 1];
      assert KeysOf(a, keyOf) == KeysOf(init, keyOf) + [keyOf(a[|a| - 1])];
      ItemsWithKey(init, keyOf, k) + (if keyOf(a[|a| - 1]) == k then [a[|a| - 1]] else [])
  }

  /** What the `reduce` of `groupBy` has built after the items of `a`. */
  function GroupsOf<T>(a: seq<T>, keyOf: T -> string): Rec<seq<T>> {
    if a == [] then []
    else
      var init := a[..|a| - 1];
      var groups := GroupsOf(init, keyOf);
      var k := keyOf(a[|a| - 1]);
      Set(groups, k, Get(groups, k).GetOr([]) + [a[|a| - 1]])
  }

  /** The group of a key holds exactly the items with that key, in order; a key no item has has no group. */
  lemma {:induction false} GroupsGet<T>(a: seq<T>, keyOf: T -> string, k: string)
    ensures Get(GroupsOf(a, keyOf), k) ==
      if k in KeysOf(a, keyOf) then Some(ItemsWithKey(a, keyOf, k)) else None
  {
    if a != [] {
      var init, last := a[..|a| - 1], a[|a| - 1];
      var groups := GroupsOf(init, keyOf);
      var kx := keyOf(last);
      var group := Get(groups, kx).GetOr([]) + [last];
      assert GroupsOf(a, keyOf) == Set(groups, kx, group);
      SetGet(groups, kx, group, k);
      assert KeysOf(a, keyOf) == KeysOf(init, keyOf) + [kx];
      assert ItemsWithKey(a, keyOf, k) == ItemsWithKey(init, keyOf, k) + (if kx == k then [last] else []);
      GroupsGet(init, keyOf, k);
      if k == kx {
        assert group == ItemsWithKey(init, keyOf, k) + [last];
        assert k in KeysOf(a, keyOf);
        assert Get(GroupsOf(a, keyOf), k) == Some(ItemsWithKey(a, keyOf, k));
      } else {
        assert ItemsWithKey(a, keyOf, k) == ItemsWithKey(init, keyOf, k);
        assert k in KeysOf(a, keyOf) <==> k in KeysOf(init, keyOf);
      }
    }
  }

  /** The groups appear in the order in which their keys first occur, each once. */
  lemma {:induction false} GroupsKeys<T>(a: seq<T>, keyOf: T -> string)
    ensures Keys(GroupsOf(a, keyOf)) == Unique(KeysOf(a, keyOf))
  {
    if a != [] {
      var init := a[..|a| - 1];
      var groups := GroupsOf(init, keyOf);
      var kx := keyOf(a[|a| - 1]);
      GroupsKeys(init, keyOf);
      UniqueElements(KeysOf(init, keyOf));
      var ks := KeysOf(a, keyOf);
      assert ks[..|ks| - 1] == KeysOf(init, keyOf);
      assert ks[|ks| - 1] == kx;
      assert GroupsOf(a, keyOf) == Set(groups, kx, Get(groups, kx).GetOr([]) + [a[|a| - 1]]);
      assert HasKey(groups, kx) <==> kx in KeysOf(init, keyOf);
    }
  }

  /** The number of items over all groups of a record. */
  function TotalSize<T>(groups: Rec<seq<T>>): nat {
    if groups == [] then 0 else |groups[0].1| + TotalSize(groups[1..])
  }

  /** Assigning a group replaces the size of the old one (or of nothing) by the size of the new one. */
  lemma {:induction false} SetTotalSize<T>(groups: Rec<seq<T>>, k: string, v: seq<T>)
    ensures TotalSize(Set(groups, k, v)) == TotalSize(groups) - |Get(groups, k).GetOr([])| + |v|
  {
    if groups != [] && groups[0].0 != k {
      SetTotalSize(groups[1..], k, v);
      assert Set(groups, k, v)[1..] == Set(groups[1..], k, v);
    }
  }

  /** No item is lost or duplicated: the groups hold as many items as the input. */
  lemma {:induction false} GroupsTotalSize<T>(a: seq<T>, keyOf: T -> string)
    ensures TotalSize(GroupsOf(a, keyOf)) == |a|
  {
    if a != [] {
      var init := a[..|a| - 1];
      var groups := GroupsOf(init, keyOf);
      var k := keyOf(a[|a| - 1]);
      GroupsTotalSize(init, keyOf);
      SetTotalSize(groups, k, Get(groups, k).GetOr([]) + [a[|a| - 1]]);
    }
  }

  /** `groupBy(items, key)`, with the key read by `keyOf`. */
  method GroupBy<T>(items: seq<T>, keyOf: T -> string) returns (groups: Rec<seq<T>>)
    ensures groups == GroupsOf(items, keyOf)
    ensures Keys(groups) == Unique(KeysOf(items, keyOf)) && DistinctKeys(groups)
    ensures TotalSize(groups) == |items|
    ensures forall k :: (Get(groups, k) ==
      if k in KeysOf(items, keyOf) then Some(ItemsWithKey(items, keyOf, k)) else None)
  {
    groups := [];
    for i := 0 to |items|
      invariant groups == GroupsOf(items[..i], keyOf)
    {
      var item := items[i];
      var group := keyOf(item);
      var current := Get(groups, group).GetOr([]);
      assert items[..i + 1][..i] == items[..i];
      groups := Set(groups, group, current + [item]);
    }
    assert items[..|items|] == items;
    GroupsKeys(items, keyOf);
    GroupsTotalSize(items, keyOf);
    UniqueNoDuplicates(KeysOf(items, keyOf));
    forall k ensures Get(groups, k) ==
      if k in KeysOf(items, keyOf) then Some(ItemsWithKey(items, keyOf, k)) else None
    {
      GroupsGet(items, keyOf, k);
    }
  }

  // ---------------------------------------------------------------------------
  // omit, pick

  /** `omit(obj, keys)`: a copy of the object with the listed keys deleted. */
  method Omit<V>(obj: Rec<V>, keys: seq<string>) returns (result: Rec<V>)
    ensures forall k :: Get(result, k) == if k in keys then None else Get(obj, k)
    ensures Keys(result) == Without(Keys(obj), keys)
    ensures DistinctKeys(obj) ==> DistinctKeys(result)
  {
    result := obj;
    WithoutNothing(Keys(obj));
    for i := 0 to |keys|
      invariant forall k :: Get(result, k) == if k in keys[..i] then None else Get(obj, k)
      invariant Keys(result) == Without(Keys(obj), keys[..i])
      invariant DistinctKeys(obj) ==> DistinctKeys(result)
    {
      assert keys[..i + 1] == keys[..i] + [keys[i]];
      OmitStep(obj, result, keys[..i], keys[i]);
      result := Delete(result, keys[i]);
    }
    assert keys[..|keys|] == keys;
  }

  /** Deleting one more listed key keeps the loop's invariant of `omit`. */
  lemma OmitStep<V>(obj: Rec<V>, result: Rec<V>, done: seq<string>, key: string)
    requires forall k :: Get(result, k) == if k in done then None else Get(obj, k)
    requires Keys(result) == Without(Keys(obj), done)
    requires DistinctKeys(obj) ==> DistinctKeys(result)
    ensures var next := Delete(result, key);
      && (forall k :: Get(next, k) == if k in done + [key] then None else Get(obj, k))
      && Keys(next) == Without(Keys(obj), done + [key])
      && (DistinctKeys(obj) ==> DistinctKeys(next))
  {
    var next := Delete(result, key);
    DeleteKeyOrder(result, key);
    WithoutSnoc(Keys(obj), done, key);
    forall k ensures Get(next, k) == if k in done + [key] then None else Get(obj, k) {
      DeleteGet(result, key, k);
    }
    if DistinctKeys(result) {
      DeleteDistinct(result, key);
    }
  }

  /** The listed keys that the object has, in list order, repeats included. */
  function PresentKeys<V>(obj: Rec<V>, keys: seq<string>): (r: seq<string>)
    ensures forall k :: k in r <==> k in keys && HasKey(obj, k)
  {
    if keys == [] then []
    else
      var init := keys[..|keys| - 1];
      assert keys == init + [keys[|keys| - 1]];
      PresentKeys(obj, init) + (if HasKey(obj, keys[|keys| - 1]) then [keys[|keys| - 1]] else [])
  }

  /** One more listed key adds itself to the picked keys when the object has it and it is new. */
  lemma PickKeyStep<V>(obj: Rec<V>, keys: seq<string>, key: string)
    ensures var p := PresentKeys(obj, keys);
      Unique(PresentKeys(obj, keys + [key])) ==
        Unique(p) + (if HasKey(obj, key) && key !in p then [key] else [])
  {
    var p := PresentKeys(obj, keys);
    assert (keys + [key])[..|keys|] == keys;
    assert PresentKeys(obj, keys + [key]) == p + (if HasKey(obj, key) then [key] else []);
    if HasKey(obj, key) {
      assert (p + [key])[..|p|] == p;
    } else {
      assert p + [] == p;
    }
  }

  /** `pick(obj, keys)`: a new object with the listed keys the object has, and their values. */
  method Pick<V>(obj: Rec<V>, keys: seq<string>) returns (result: Rec<V>)
    ensures forall k :: Get(result, k) == if k in keys then Get(obj, k) else None
    ensures Keys(result) == Unique(PresentKeys(obj, keys))
    ensures DistinctKeys(result)
  {
    result := [];
    for i := 0 to |keys|
      invariant forall k :: Get(result, k) == if k in keys[..i] then Get(obj, k) else None
      invariant Keys(result) == Unique(PresentKeys(obj, keys[..i]))
      invariant DistinctKeys(result)
    {
      var key := keys[i];
      assert keys[..i + 1] == keys[..i] + [key];
      PickKeyStep(obj, keys[..i], key);
      UniqueElements(PresentKeys(obj, keys[..i]));
      if HasKey(obj, key) {
        var value := Get(obj, key).value;
        forall k ensures Get(Set(result, key, value), k) == if k in keys[..i + 1] then Get(obj, k) else None {
          SetGet(result, key, value, k);
        }
        SetDistinct(result, key, value);
        result := Set(result, key, value);
      }
    }
    assert keys[..|keys|] == keys;
  }
}
