/**
 * The integer and string utilities of src/lib/utils.ts: relative time formatting (as a
 * function of the elapsed time), truncation, clamping, grouping, the 32-bit string hash
 * and the brightness test of a hex colour.
 *
 * JavaScript numbers are modelled as integers: the modelled inputs are whole numbers of
 * milliseconds, characters and colour components, for which every operation used here
 * is exact.
 */
module Utils {
  import opened Types
  import Text
  import Seqs

  // ---------------------------------------------------------------------------------
  // formatRelativeTime
  // ---------------------------------------------------------------------------------

  /**
   * formatRelativeTime, given `now - then` in milliseconds; `localeDate` stands for
   * `then.toLocaleDateString()`. Dafny's `/` by a positive divisor is `Math.floor`.
   */
  function FormatRelativeTime(elapsedMs: int, localeDate: string): string {
    var seconds := elapsedMs / 1000;
    if seconds < 60 then "just now"
    else if seconds < 3600 then Text.NatToString(seconds / 60) + "m ago"
    else if seconds < 86400 then Text.NatToString(seconds / 3600) + "h ago"
    else if seconds < 604800 then Text.NatToString(seconds / 86400) + "d ago"
    else localeDate
  }

  /**
   * The buckets: under a minute (including a date in the future) is "just now"; otherwise
   * the count n of whole minutes, hours or days such that n units fit in the elapsed time
   * and n + 1 do not, with n below the next unit; from a week on, the locale date.
   */
  lemma FormatRelativeTimeBuckets(elapsedMs: int, localeDate: string)
    ensures var s := elapsedMs / 1000;
            var r := FormatRelativeTime(elapsedMs, localeDate);
            && (s < 60 ==> r == "just now")
            && (60 <= s < 3600 ==> exists n: nat :: 1 <= n < 60 && n * 60 <= s < (n + 1) * 60
                                          && r == Text.NatToString(n) + "m ago")
            && (3600 <= s < 86400 ==> exists n: nat :: 1 <= n < 24 && n * 3600 <= s < (n + 1) * 3600
                                          && r == Text.NatToString(n) + "h ago")
            && (86400 <= s < 604800 ==> exists n: nat :: 1 <= n < 7 && n * 86400 <= s < (n + 1) * 86400
                                          && r == Text.NatToString(n) + "d ago")
            && (604800 <= s ==> r == localeDate)
  {
    var s := elapsedMs / 1000;
    if 60 <= s < 3600 {
      var n := s / 60;
      assert 1 <= n < 60 && n * 60 <= s < (n + 1) * 60;
      assert FormatRelativeTime(elapsedMs, localeDate) == Text.NatToString(n) + "m ago";
    } else if 3600 <= s < 86400 {
      var n := s / 3600;
      assert 1 <= n < 24 && n * 3600 <= s < (n + 1) * 3600;
      assert FormatRelativeTime(elapsedMs, localeDate) == Text.NatToString(n) + "h ago";
    } else if 86400 <= s < 604800 {
      var n := s / 86400;
      assert 1 <= n < 7 && n * 86400 <= s < (n + 1) * 86400;
      assert FormatRelativeTime(elapsedMs, localeDate) == Text.NatToString(n) + "d ago";
    }
  }

  /** The cases of src/lib/__tests__/utils.test.ts. */
  lemma FormatRelativeTimeExamples(localeDate: string)
    ensures FormatRelativeTime(30 * 1000, localeDate) == "just now"
    ensures FormatRelativeTime(15 * 60 * 1000, localeDate) == "15m ago"
    ensures FormatRelativeTime(4 * 60 * 60 * 1000, localeDate) == "4h ago"
    ensures FormatRelativeTime(3 * 24 * 60 * 60 * 1000, localeDate) == "3d ago"
  {
    assert Text.NatToString(15) == Text.NatToString(1) + [Text.Digit(5)];
  }

  // ---------------------------------------------------------------------------------
  // truncate and clamp
  // ---------------------------------------------------------------------------------

  /**
   * truncate: the text itself when it fits, otherwise its first `length` characters and
   * "...". `substring` treats a negative length as 0.
   */
  function Truncate(text: string, length: int): (r: string)
    ensures |text| <= length ==> r == text
    ensures |text| > length ==>
              var n := if length < 0 then 0 else length;
              |r| == n + 3 && r[..n] == text[..n] && r[n..] == "..."
  {
    if |text| <= length then text
    else Text.Prefix(text, if length < 0 then 0 else length) + "..."
  }

  /** Truncation never makes a string longer than `length` + 3 and keeps a prefix of it. */
  lemma TruncateBounds(text: string, length: nat)
    ensures |Truncate(text, length)| <= length + 3
    ensures |Truncate(text, length)| <= |text| || Truncate(text, length) == text[..length] + "..."
    ensures Truncate(Truncate(text, length), length + 3) == Truncate(text, length)
  {
  }

  /** clamp: `Math.max(min, Math.min(max, value))`. */
  function Clamp(value: int, min: int, max: int): (r: int)
    ensures min <= max ==> min <= r <= max
    ensures min <= value <= max ==> r == value
    ensures value < min ==> r == min
    ensures min <= max < value ==> r == max
    ensures min > max ==> r == min
  {
    var upper := if max < value then max else value;
    if min > upper then min else upper
  }

  // ---------------------------------------------------------------------------------
  // hashString
  // ---------------------------------------------------------------------------------

  const TwoTo32: int := 0x1_0000_0000
  const TwoTo31: int := 0x8000_0000

  /** ECMAScript ToInt32 on an integral number: reduction modulo 2^32 into the signed range. */
  function ToInt32(x: int): (r: int)
    ensures -TwoTo31 <= r < TwoTo31
  {
    var m := x % TwoTo32;
    if m >= TwoTo31 then m - TwoTo32 else m
  }

  predicate IsInt32(x: int) {
    -TwoTo31 <= x < TwoTo31
  }

  /** One step of the loop: `hash = ((hash << 5) - hash) + char; hash = hash & hash`. */
  function HashStep(hash: int, code: int): int {
    var shifted := ToInt32(ToInt32(hash) * 32);
    ToInt32(shifted - hash + code)
  }

  /** The hash of a string, one step per character from the left. */
  function Hash(s: string): int {
    if s == [] then 0 else HashStep(Hash(s[..|s| - 1]), s[|s| - 1] as int)
  }

  /** hashString: the loop over the characters. */
  method HashString(str: string) returns (hash: int)
    ensures hash == Hash(str)
    ensures IsInt32(hash)
    ensures str == [] ==> hash == 0
  {
    hash := 0;
    for i := 0 to |str|
      invariant hash == Hash(str[..i])
      invariant IsInt32(hash)
    {
      var code := str[i] as int;
      assert str[..i + 1][..i] == str[..i];
      hash := HashStep(hash, code);
    }
    assert str[..|str|] == str;
  }

  /** ToInt32 only depends on its argument modulo 2^32. */
  lemma ToInt32Periodic(x: int, k: int)
    ensures ToInt32(x + k * TwoTo32) == ToInt32(x)
  {
    assert (x + k * TwoTo32) % TwoTo32 == x % TwoTo32;
  }

  /** ToInt32 subtracts a multiple of 2^32. */
  lemma ToInt32Offset(x: int) returns (k: int)
    ensures x == ToInt32(x) + k * TwoTo32
  {
    k := x / TwoTo32;
    if x % TwoTo32 >= TwoTo31 {
      k := k + 1;
    }
  }

  /** The shift-and-subtract step is multiplication by 31 modulo 2^32. */
  lemma HashStepIsTimes31(hash: int, code: int)
    ensures HashStep(hash, code) == ToInt32(31 * hash + code)
  {
    var a := ToInt32Offset(hash);
    var b := ToInt32Offset(ToInt32(hash) * 32);
    var shifted := ToInt32(ToInt32(hash) * 32);
    assert shifted - hash + code == 31 * hash + code + (-(a * 32) - b) * TwoTo32;
    ToInt32Periodic(31 * hash + code, -(a * 32) - b);
  }

  /** The hash of s + [c] extends the hash of s by `31 * h + c` in 32-bit arithmetic. */
  lemma HashSnoc(s: string, c: char)
    ensures Hash(s + [c]) == ToInt32(31 * Hash(s) + c as int)
  {
    assert (s + [c])[..|s|] == s;
    HashStepIsTimes31(Hash(s), c as int);
  }

  // ---------------------------------------------------------------------------------
  // isColorDark
  // ---------------------------------------------------------------------------------

  /** `s.replace('#', '')`: the first '#' removed. */
  function RemoveFirst(s: string, c: char): (r: string)
    ensures c !in s ==> r == s
    ensures c in s ==> |r| == |s| - 1
  {
    if s == [] then s else if s[0] == c then s[1..] else [s[0]] + RemoveFirst(s[1..], c)
  }

  /** `s.substr(start, length)` for non-negative arguments. */
  function Substr(s: string, start: nat, length: nat): (r: string)
    ensures |r| <= length
    ensures start >= |s| ==> r == ""
    ensures start < |s| ==> start + |r| <= |s| && r == s[start..start + |r|]
                            && (|r| == length || start + |r| == |s|)
  {
    if start >= |s| then "" else Text.Prefix(s[start..], length)
  }

  function HexDigitValue(c: char): Option<nat> {
    if '0' <= c <= '9' then Some(c as int - '0' as int)
    else if 'a' <= c <= 'f' then Some(c as int - 'a' as int + 10)
    else if 'A' <= c <= 'F' then Some(c as int - 'A' as int + 10)
    else None
  }

  /** Length of the leading run of hexadecimal digits. */
  function HexRun(s: string): (n: nat)
    ensures n <= |s|
    ensures forall i :: 0 <= i < n ==> HexDigitValue(s[i]).Some?
    ensures n < |s| ==> HexDigitValue(s[n]).None?
  {
    if s == [] || HexDigitValue(s[0]).None? then 0 else 1 + HexRun(s[1..])
  }

  /** The value of a string of hexadecimal digits. */
  function HexValue(s: string): nat
    requires forall i :: 0 <= i < |s| ==> HexDigitValue(s[i]).Some?
  {
    if s == [] then 0 else HexValue(s[..|s| - 1]) * 16 + HexDigitValue(s[|s| - 1]).value
  }

  /**
   * `parseInt(s, 16)`: leading white space skipped, an optional sign, an optional "0x"
   * prefix, then the longest run of hexadecimal digits; None (NaN) when that run is empty.
   */
  function ParseIntHex(s: string): Option<int> {
    var t := Text.TrimStart(s);
    var sign := if t != [] && t[0] == '-' then -1 else 1;
    var u := if t != [] && (t[0] == '-' || t[0] == '+') then t[1..] else t;
    var v := if |u| >= 2 && u[0] == '0' && (u[1] == 'x' || u[1] == 'X') then u[2..] else u;
    var n := HexRun(v);
    if n == 0 then None else Some(sign * HexValue(v[..n]))
  }

  /** Two hexadecimal digits parse to their value. */
  lemma ParseTwoHexDigits(hi: char, lo: char)
    requires HexDigitValue(hi).Some? && HexDigitValue(lo).Some?
    ensures ParseIntHex([hi, lo]) == Some(16 * HexDigitValue(hi).value + HexDigitValue(lo).value)
  {
    var s := [hi, lo];
    assert Text.TrimStart(s) == s;
    assert HexRun(s) == 2 by {
      assert s[1..] == [lo];
      assert [lo][1..] == [];
    }
    assert s[..2] == s;
    assert s[..1] == [hi];
    assert HexValue([hi]) == HexDigitValue(hi).value by {
      assert [hi][..0] == [];
    }
    assert HexValue(s) == HexValue([hi]) * 16 + HexDigitValue(lo).value;
  }

  /**
   * isColorDark: brightness `(299 r + 587 g + 114 b) / 1000 < 128`, which on integers is
   * `299 r + 587 g + 114 b < 128000`; a component that does not parse is NaN and makes the
   * comparison false.
   */
  predicate IsColorDark(color: string) {
    var hex := RemoveFirst(color, '#');
    var r := ParseIntHex(Substr(hex, 0, 2));
    var g := ParseIntHex(Substr(hex, 2, 2));
    var b := ParseIntHex(Substr(hex, 4, 2));
    r.Some? && g.Some? && b.Some? && r.value * 299 + g.value * 587 + b.value * 114 < 128000
  }

  /** A colour "#rrggbb" is dark exactly when its weighted brightness is under 128000. */
  lemma IsColorDarkOfHex(color: string)
    requires |color| == 7 && color[0] == '#'
    requires forall i :: 1 <= i < 7 ==> HexDigitValue(color[i]).Some?
    ensures var d := (i: nat) requires 1 <= i < 7 => HexDigitValue(color[i]).value;
            IsColorDark(color) <==>
              299 * (16 * d(1) + d(2)) + 587 * (16 * d(3) + d(4)) + 114 * (16 * d(5) + d(6)) < 128000
  {
    var hex := RemoveFirst(color, '#');
    assert hex == color[1..];
    assert Substr(hex, 0, 2) == [color[1], color[2]];
    assert Substr(hex, 2, 2) == [color[3], color[4]];
    assert Substr(hex, 4, 2) == [color[5], color[6]];
    ParseTwoHexDigits(color[1], color[2]);
    ParseTwoHexDigits(color[3], color[4]);
    ParseTwoHexDigits(color[5], color[6]);
  }

  // ---------------------------------------------------------------------------------
  // groupBy
  // ---------------------------------------------------------------------------------

  /** The items whose key is k. */
  ghost function KeyIs<T, K>(key: T -> K, k: K): T -> bool {
    x => key(x) == k
  }

  /** Index of the entry for k in a Map kept as entries in insertion order, or -1. */
  function EntryIndex<T, K(==)>(groups: seq<(K, seq<T>)>, k: K): (i: int)
    ensures -1 <= i < |groups|
    ensures i >= 0 ==> groups[i].0 == k
    ensures i == -1 ==> forall j :: 0 <= j < |groups| ==> groups[j].0 != k
  {
    if groups == [] then -1
    else if groups[|groups| - 1].0 == k then |groups| - 1
    else EntryIndex(groups[..|groups| - 1], k)
  }

  function TotalSize<T, K>(groups: seq<(K, seq<T>)>): nat {
    if groups == [] then 0 else TotalSize(groups[..|groups| - 1]) + |groups[|groups| - 1].1|
  }

  ghost predicate DistinctEntryKeys<T, K>(groups: seq<(K, seq<T>)>) {
    forall i, j :: 0 <= i < j < |groups| ==> groups[i].0 != groups[j].0
  }

  ghost predicate GroupsAreFilters<T, K>(items: seq<T>, key: T -> K, groups: seq<(K, seq<T>)>) {
    forall i :: 0 <= i < |groups| ==> groups[i].1 == Seqs.Filter(items, KeyIs(key, groups[i].0))
  }

  ghost predicate CoversItems<T, K>(items: seq<T>, key: T -> K, groups: seq<(K, seq<T>)>) {
    forall x :: x in items ==> exists i :: 0 <= i < |groups| && groups[i].0 == key(x)
  }

  ghost predicate NonEmptyGroups<T, K>(groups: seq<(K, seq<T>)>) {
    forall i :: 0 <= i < |groups| ==> groups[i].1 != []
  }

  /** What groupBy promises about its Map, read as entries in insertion order. */
  ghost predicate Grouping<T, K>(items: seq<T>, key: T -> K, groups: seq<(K, seq<T>)>) {
    && DistinctEntryKeys(groups)
    && GroupsAreFilters(items, key, groups)
    && CoversItems(items, key, groups)
    && NonEmptyGroups(groups)
    && TotalSize(groups) == |items|
  }

  /**
   * groupBy: every item is appended to the group of its key; the groups are exactly the
   * items of each key in their original order, one non-empty group per key, and their sizes
   * add up to the number of items.
   */
  method GroupBy<T(!new), K(==)>(items: seq<T>, key: T -> K) returns (groups: seq<(K, seq<T>)>)
    ensures Grouping(items, key, groups)
  {
    groups := [];
    for n := 0 to |items|
      invariant Grouping(items[..n], key, groups)
    {
      var item := items[n];
      var groupKey := key(item);
      var at := EntryIndex(groups, groupKey);
      var before := groups;
      if at >= 0 {
        var group := groups[at].1 + [item];
        groups := groups[at := (groupKey, group)];
        GroupingUpdate(items[..n], item, key, before, at);
      } else {
        groups := groups + [(groupKey, [item])];
        GroupingAppend(items[..n], item, key, before);
      }
      assert items[..n + 1] == items[..n] + [item];
    }
    assert items[..|items|] == items;
  }

  /** Appending an item whose key already has an entry extends that entry. */
  lemma GroupingUpdate<T(!new), K>(items: seq<T>, item: T, key: T -> K,
                                   before: seq<(K, seq<T>)>, at: nat)
    requires Grouping(items, key, before)
    requires at < |before| && before[at].0 == key(item)
    ensures Grouping(items + [item], key, before[at := (key(item), before[at].1 + [item])])
  {
    var after := before[at := (key(item), before[at].1 + [item])];
    UpdateKeepsFilters(items, item, key, before, at, after);
    UpdateCovers(items, item, key, before, at, after);
    assert DistinctEntryKeys(after) by {
      forall i | 0 <= i < |after| ensures after[i].0 == before[i].0 { }
    }
    assert NonEmptyGroups(after);
    TotalSizeUpdate(before, at, (key(item), before[at].1 + [item]));
  }

  lemma UpdateKeepsFilters<T, K>(items: seq<T>, item: T, key: T -> K,
                                 before: seq<(K, seq<T>)>, at: nat, after: seq<(K, seq<T>)>)
    requires GroupsAreFilters(items, key, before) && DistinctEntryKeys(before)
    requires at < |before| && before[at].0 == key(item)
    requires after == before[at := (key(item), before[at].1 + [item])]
    ensures GroupsAreFilters(items + [item], key, after)
  {
    forall i | 0 <= i < |after|
      ensures after[i].1 == Seqs.Filter(items + [item], KeyIs(key, after[i].0))
    {
      Seqs.FilterSnoc(items, item, KeyIs(key, after[i].0));
    }
  }

  lemma UpdateCovers<T, K>(items: seq<T>, item: T, key: T -> K,
                           before: seq<(K, seq<T>)>, at: nat, after: seq<(K, seq<T>)>)
    requires CoversItems(items, key, before)
    requires at < |before| && before[at].0 == key(item)
    requires after == before[at := (key(item), before[at].1 + [item])]
    ensures CoversItems(items + [item], key, after)
  {
    forall x | x in items + [item] ensures exists i :: 0 <= i < |after| && after[i].0 == key(x) {
      if x in items {
        var i :| 0 <= i < |before| && before[i].0 == key(x);
        assert after[i].0 == key(x);
      } else {
        assert after[at].0 == key(x);
      }
    }
  }

  /** Appending an item whose key has no entry yet adds an entry holding just that item. */
  lemma GroupingAppend<T(!new), K>(items: seq<T>, item: T, key: T -> K, before: seq<(K, seq<T>)>)
    requires Grouping(items, key, before)
    requires forall i :: 0 <= i < |before| ==> before[i].0 != key(item)
    ensures Grouping(items + [item], key, before + [(key(item), [item])])
  {
    var after := before + [(key(item), [item])];
    forall i | 0 <= i < |after|
      ensures after[i].1 == Seqs.Filter(items + [item], KeyIs(key, after[i].0))
    {
      Seqs.FilterSnoc(items, item, KeyIs(key, after[i].0));
      if i == |before| {
        NoItemWithNewKey(items, key, before, key(item));
      }
    }
    forall x | x in items + [item] ensures exists i :: 0 <= i < |after| && after[i].0 == key(x) {
      if x in items {
        var i :| 0 <= i < |before| && before[i].0 == key(x);
        assert after[i].0 == key(x);
      } else {
        assert after[|before|].0 == key(x);
      }
    }
    assert after[..|after| - 1] == before;
  }

  /** No item has a key that has no entry. */
  lemma NoItemWithNewKey<T(!new), K>(items: seq<T>, key: T -> K, groups: seq<(K, seq<T>)>, k: K)
    requires CoversItems(items, key, groups)
    requires forall i :: 0 <= i < |groups| ==> groups[i].0 != k
    ensures Seqs.Filter(items, KeyIs(key, k)) == []
  {
    Seqs.FilterMembers(items, KeyIs(key, k));
  }

  lemma {:induction false} TotalSizeUpdate<T, K>(groups: seq<(K, seq<T>)>, at: nat, e: (K, seq<T>))
    requires at < |groups|
    ensures TotalSize(groups[at := e]) == TotalSize(groups) - |groups[at].1| + |e.1|
  {
    var last := |groups| - 1;
    var g := groups[at := e];
    if at == last {
      assert g[..last] == groups[..last];
    } else {
      assert g[..last] == groups[..last][at := e];
      TotalSizeUpdate(groups[..last], at, e);
    }
  }
}
