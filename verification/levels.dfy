/** The level list: of the discovered image assets keep those whose path ends in
    `photo_<digits>.jpg`, order them by that number (a stable sort, so equal numbers keep
    discovery order), take their URLs, and fall back to `photo.jpg` or to a placeholder
    URL when none qualifies. */
module Levels {

  datatype Option<T> = None | Some(value: T)

  /** One entry of the asset discovery result: a path and the URL it resolves to. */
  datatype Asset = Asset(path: string, url: string)

  const PLACEHOLDER_URL: string := "https://picsum.photos/450/450"
  const PHOTO_TAG: string := "photo_"
  const EXTENSION: string := ".jpg"

  predicate IsDigit(c: char) { '0' <= c <= '9' }

  predicate AllDigits(s: string) {
    forall i :: 0 <= i < |s| ==> IsDigit(s[i])
  }

  /** The value of a run of decimal digits, as `parseInt` reads it. */
  function DecimalValue(d: string): (v: nat)
    requires AllDigits(d)
  {
    if d == [] then 0
    else 10 * DecimalValue(d[..|d| - 1]) + (d[|d| - 1] as int - '0' as int)
  }

  /** Decimal digits of `n`, without leading zeros (a reference encoding). */
  function Decimal(n: nat): (d: string)
    ensures |d| > 0 && AllDigits(d)
  {
    var last := [('0' as int + n % 10) as char];
    if n < 10 then last else Decimal(n / 10) + last
  }

  /** Reading back the decimal digits of a number gives the number. */
  lemma {:induction false} DecimalRoundTrip(n: nat)
    ensures DecimalValue(Decimal(n)) == n
  {
    var d := Decimal(n);
    if n >= 10 {
      DecimalRoundTrip(n / 10);
      assert d[..|d| - 1] == Decimal(n / 10);
    }
  }

  /** Leading zeros do not change the number: `photo_01.jpg` and `photo_1.jpg` tie. */
  lemma {:induction false} LeadingZero(d: string)
    requires AllDigits(d)
    ensures AllDigits("0" + d) && DecimalValue("0" + d) == DecimalValue(d)
  {
    if d != [] {
      assert ("0" + d)[..|d|] == "0" + d[..|d| - 1];
      LeadingZero(d[..|d| - 1]);
    }
  }

  /** The length of the longest run of digits at the end of `s`. */
  function TrailingDigits(s: string): (n: nat)
    ensures n <= |s| && AllDigits(s[|s| - n..])
    ensures n < |s| ==> !IsDigit(s[|s| - n - 1])
  {
    if s == [] || !IsDigit(s[|s| - 1]) then 0
    else 1 + TrailingDigits(s[..|s| - 1])
  }

  /** The level number of a path matching `photo_(\d+)\.jpg$`, or None when it does not match. */
  function ParseLevelNumber(path: string): (r: Option<nat>)
    ensures r.Some? ==> |path| > |PHOTO_TAG| + |EXTENSION| && path[|path| - |EXTENSION|..] == EXTENSION
  {
    if |path| < |EXTENSION| || path[|path| - |EXTENSION|..] != EXTENSION then None
    else
      var stem := path[..|path| - |EXTENSION|];
      var n := TrailingDigits(stem);
      var head := stem[..|stem| - n];
      if n == 0 || |head| < |PHOTO_TAG| || head[|head| - |PHOTO_TAG|..] != PHOTO_TAG then None
      else Some(DecimalValue(stem[|stem| - n..]))
  }

  /** A run of digits behind a non-digit is exactly the trailing digit run. */
  lemma {:induction false} TrailingDigitsAfter(a: string, d: string)
    requires |a| > 0 && !IsDigit(a[|a| - 1]) && AllDigits(d)
    ensures TrailingDigits(a + d) == |d|
  {
    if d != [] {
      assert (a + d)[..|a + d| - 1] == a + d[..|d| - 1];
      TrailingDigitsAfter(a, d[..|d| - 1]);
    }
  }

  /** Every path of the form `<prefix>photo_<digits>.jpg` is a level, numbered by its digits. */
  lemma ParseNumberedPath(prefix: string, digits: string)
    requires |digits| > 0 && AllDigits(digits)
    ensures ParseLevelNumber(prefix + PHOTO_TAG + digits + EXTENSION) == Some(DecimalValue(digits))
  {
    var path := prefix + PHOTO_TAG + digits + EXTENSION;
    var stem := prefix + PHOTO_TAG + digits;
    assert path[|path| - |EXTENSION|..] == EXTENSION;
    assert path[..|path| - |EXTENSION|] == stem;
    TrailingDigitsAfter(prefix + PHOTO_TAG, digits);
    assert stem[..|stem| - |digits|] == prefix + PHOTO_TAG;
    assert stem[|stem| - |digits|..] == digits;
  }

  /** Conversely, every path that parses has that form. */
  lemma ParsedPathShape(path: string) returns (prefix: string, digits: string)
    requires ParseLevelNumber(path).Some?
    ensures |digits| > 0 && AllDigits(digits)
    ensures path == prefix + PHOTO_TAG + digits + EXTENSION
    ensures ParseLevelNumber(path) == Some(DecimalValue(digits))
  {
    var stem := path[..|path| - |EXTENSION|];
    var n := TrailingDigits(stem);
    var head := stem[..|stem| - n];
    prefix := head[..|head| - |PHOTO_TAG|];
    digits := stem[|stem| - n..];
    assert head == prefix + PHOTO_TAG;
    assert stem == head + digits;
    assert path == stem + EXTENSION;
  }

  /** `photo_<n>.jpg` names level number n. */
  lemma NamedLevel(prefix: string, n: nat)
    ensures ParseLevelNumber(prefix + PHOTO_TAG + Decimal(n) + EXTENSION) == Some(n)
  {
    ParseNumberedPath(prefix, Decimal(n));
    DecimalRoundTrip(n);
  }

  predicate IsNumbered(a: Asset) {
    ParseLevelNumber(a.path).Some?
  }

  /** The sort key: the level number, or 0 for a path that does not match. */
  function Key(a: Asset): nat {
    match ParseLevelNumber(a.path)
    case Some(n) => n
    case None => 0
  }

  /** The sort key of a numbered photo `<prefix>photo_<digits>.jpg` is the decimal value of its
      digits. Only such assets survive the filter, so the 0 default never reaches the sort. */
  lemma KeyOfPath(prefix: string, digits: string, url: string)
    requires |digits| > 0 && AllDigits(digits)
    ensures Key(Asset(prefix + PHOTO_TAG + digits + EXTENSION, url)) == DecimalValue(digits)
  {
    ParseNumberedPath(prefix, digits);
  }

  /** The assets whose path is a numbered photo, in discovery order. */
  function NumberedOnly(assets: seq<Asset>): (r: seq<Asset>)
    ensures |r| <= |assets|
    ensures forall a :: a in r <==> a in assets && IsNumbered(a)
    ensures forall a :: multiset(r)[a] == if IsNumbered(a) then multiset(assets)[a] else 0
  {
    if assets == [] then []
    else
      assert assets == [assets[0]] + assets[1..];
      if IsNumbered(assets[0]) then [assets[0]] + NumberedOnly(assets[1..])
      else NumberedOnly(assets[1..])
  }

  /** The filter keeps discovery order: filtering a concatenation filters each part in turn. */
  lemma {:induction false} NumberedOnlyConcat(a: seq<Asset>, b: seq<Asset>)
    ensures NumberedOnly(a + b) == NumberedOnly(a) + NumberedOnly(b)
  {
    if a == [] {
      assert a + b == b;
    } else {
      assert (a + b)[0] == a[0];
      assert (a + b)[1..] == a[1..] + b;
      NumberedOnlyConcat(a[1..], b);
    }
  }

  /** For every level number above 0 (which no unmatched path can carry), the filter keeps the
      assets with that number, in their discovery order. */
  lemma {:induction false} NumberedOnlyWithKey(assets: seq<Asset>, k: nat)
    requires k > 0
    ensures WithKey(NumberedOnly(assets), Key, k) == WithKey(assets, Key, k)
  {
    if assets != [] {
      NumberedOnlyWithKey(assets[1..], k);
      if IsNumbered(assets[0]) {
        var rest := NumberedOnly(assets[1..]);
        assert ([assets[0]] + rest)[0] == assets[0];
        assert ([assets[0]] + rest)[1..] == rest;
      }
    }
  }

  /** Ascending by `key`. */
  predicate Sorted<T>(s: seq<T>, key: T -> nat) {
    forall i, j :: 0 <= i < j < |s| ==> key(s[i]) <= key(s[j])
  }

  /** The entries of `s` whose key is `k`, in their order in `s`. */
  function WithKey<T>(s: seq<T>, key: T -> nat, k: nat): (r: seq<T>) {
    if s == [] then []
    else (if key(s[0]) == k then [s[0]] else []) + WithKey(s[1..], key, k)
  }

  /** Inserts `x` into a sorted sequence, before every entry with the same or a larger key. */
  function Insert<T>(x: T, s: seq<T>, key: T -> nat): (r: seq<T>)
    requires Sorted(s, key)
    ensures Sorted(r, key)
    ensures multiset(r) == multiset(s) + multiset{x}
  {
    if s == [] || key(x) <= key(s[0]) then [x] + s
    else
      var rest := Insert(x, s[1..], key);
      assert s == [s[0]] + s[1..];
      SortedCons(s[0], x, s[1..], rest, key);
      [s[0]] + rest
  }

  /** The head of a sorted sequence can stay in front of the rest with one larger entry inserted. */
  lemma SortedCons<T>(h: T, x: T, t: seq<T>, rest: seq<T>, key: T -> nat)
    requires Sorted([h] + t, key) && Sorted(rest, key)
    requires key(h) < key(x)
    requires multiset(rest) == multiset(t) + multiset{x}
    ensures Sorted([h] + rest, key)
  {
    forall e | e in rest ensures key(h) <= key(e) {
      assert e in multiset(rest);
      if e != x {
        assert e in t;
        var i :| 0 <= i < |t| && t[i] == e;
        assert ([h] + t)[0] == h && ([h] + t)[i + 1] == e;
      }
    }
    forall i, j | 0 <= i < j < |[h] + rest| ensures key(([h] + rest)[i]) <= key(([h] + rest)[j]) {
      if i == 0 {
        assert ([h] + rest)[j] in rest;
      } else {
        assert ([h] + rest)[i] == rest[i - 1] && ([h] + rest)[j] == rest[j - 1];
      }
    }
  }

  /** Sorts by `key`; entries with equal keys keep their relative order. */
  function SortBy<T>(s: seq<T>, key: T -> nat): (r: seq<T>)
    ensures Sorted(r, key)
    ensures multiset(r) == multiset(s)
  {
    if s == [] then []
    else
      assert s == [s[0]] + s[1..];
      Insert(s[0], SortBy(s[1..], key), key)
  }

  lemma {:induction false} WithKeyConcat<T>(a: seq<T>, b: seq<T>, key: T -> nat, k: nat)
    ensures WithKey(a + b, key, k) == WithKey(a, key, k) + WithKey(b, key, k)
  {
    if a == [] {
      assert a + b == b;
    } else {
      var head := if key(a[0]) == k then [a[0]] else [];
      assert (a + b)[0] == a[0];
      assert (a + b)[1..] == a[1..] + b;
      assert WithKey(a + b, key, k) == head + WithKey(a[1..] + b, key, k);
      WithKeyConcat(a[1..], b, key, k);
      assert WithKey(a, key, k) == head + WithKey(a[1..], key, k);
    }
  }

  /** Inserting `x` puts it in front of the entries with its key and disturbs no other key. */
  lemma {:induction false} InsertWithKey<T>(x: T, s: seq<T>, key: T -> nat, k: nat)
    requires Sorted(s, key)
    ensures WithKey(Insert(x, s, key), key, k) == (if key(x) == k then [x] else []) + WithKey(s, key, k)
  {
    if s == [] || key(x) <= key(s[0]) {
      WithKeyConcat([x], s, key, k);
    } else {
      var rest := Insert(x, s[1..], key);
      assert Insert(x, s, key) == [s[0]] + rest;
      WithKeyConcat([s[0]], rest, key, k);
      InsertWithKey(x, s[1..], key, k);
      WithKeyConcat([s[0]], s[1..], key, k);
      assert s == [s[0]] + s[1..];
    }
  }

  /** The sort is stable: for every key, the entries carrying it keep their order. */
  lemma {:induction false} SortStable<T>(s: seq<T>, key: T -> nat, k: nat)
    ensures WithKey(SortBy(s, key), key, k) == WithKey(s, key, k)
  {
    if s != [] {
      SortStable(s[1..], key, k);
      InsertWithKey(s[0], SortBy(s[1..], key), key, k);
    }
  }

  /** An entry with key `k` is found where `WithKey` found one. */
  lemma {:induction false} WithKeyWitness<T>(s: seq<T>, key: T -> nat, k: nat) returns (i: nat)
    requires WithKey(s, key, k) != []
    ensures i < |s| && key(s[i]) == k
  {
    if key(s[0]) == k {
      i := 0;
    } else {
      var j := WithKeyWitness(s[1..], key, k);
      i := j + 1;
    }
  }

  /** The first entry of a sequence is among the entries of its own key. */
  lemma FirstKeyPresent<T>(s: seq<T>, key: T -> nat)
    requires s != []
    ensures WithKey(s, key, key(s[0])) != []
  {
  }

  /** Two sequences that agree on every key and share their first entry agree on every key
      after it. */
  lemma DropCommonHead<T>(r1: seq<T>, r2: seq<T>, key: T -> nat, k: nat)
    requires r1 != [] && r2 != [] && r1[0] == r2[0]
    requires WithKey(r1, key, k) == WithKey(r2, key, k)
    ensures WithKey(r1[1..], key, k) == WithKey(r2[1..], key, k)
  {
    var front := if key(r1[0]) == k then [r1[0]] else [];
    var tail1, tail2 := WithKey(r1[1..], key, k), WithKey(r2[1..], key, k);
    assert WithKey(r1, key, k) == front + tail1;
    assert WithKey(r2, key, k) == front + tail2;
    assert tail1 == (front + tail1)[|front|..];
    assert tail2 == (front + tail2)[|front|..];
  }

  /** Two sorted sequences that agree on every key start with the same entry. */
  lemma SameHead<T>(r1: seq<T>, r2: seq<T>, key: T -> nat)
    requires r1 != [] && r2 != [] && Sorted(r1, key) && Sorted(r2, key)
    requires WithKey(r1, key, key(r1[0])) == WithKey(r2, key, key(r1[0]))
    requires WithKey(r1, key, key(r2[0])) == WithKey(r2, key, key(r2[0]))
    ensures r1[0] == r2[0]
  {
    var m1, m2 := key(r1[0]), key(r2[0]);
    assert WithKey(r1, key, m1)[0] == r1[0];
    var i2 := WithKeyWitness(r2, key, m1);
    assert WithKey(r2, key, m2)[0] == r2[0];
    var i1 := WithKeyWitness(r1, key, m2);
    assert m1 == m2;
  }

  /** Sortedness and stability fix the result: any two sorted sequences that agree on the
      entries of every key are equal, so every stable sort by `key` yields `SortBy`'s order. */
  lemma {:induction false} StableSortUnique<T>(r1: seq<T>, r2: seq<T>, key: T -> nat)
    requires Sorted(r1, key) && Sorted(r2, key)
    requires forall k :: WithKey(r1, key, k) == WithKey(r2, key, k)
    ensures r1 == r2
  {
    if r1 == [] && r2 != [] {
      FirstKeyPresent(r2, key);
    } else if r1 != [] && r2 == [] {
      FirstKeyPresent(r1, key);
    } else if r1 != [] {
      SameHead(r1, r2, key);
      forall k ensures WithKey(r1[1..], key, k) == WithKey(r2[1..], key, k) {
        DropCommonHead(r1, r2, key, k);
      }
      StableSortUnique(r1[1..], r2[1..], key);
      assert r1 == [r1[0]] + r1[1..] && r2 == [r2[0]] + r2[1..];
    }
  }

  /** The numbered photos in level order. */
  function SelectLevels(assets: seq<Asset>): (r: seq<Asset>)
    ensures Sorted(r, Key)
    ensures forall a :: a in r <==> a in assets && IsNumbered(a)
    ensures multiset(r) == multiset(NumberedOnly(assets))
    ensures forall k :: WithKey(r, Key, k) == WithKey(NumberedOnly(assets), Key, k)
    ensures forall k | k > 0 :: WithKey(r, Key, k) == WithKey(assets, Key, k)
  {
    var r := SortBy(NumberedOnly(assets), Key);
    assert forall k :: WithKey(r, Key, k) == WithKey(NumberedOnly(assets), Key, k) by {
      forall k ensures WithKey(r, Key, k) == WithKey(NumberedOnly(assets), Key, k) {
        SortStable(NumberedOnly(assets), Key, k);
      }
    }
    forall k | k > 0 ensures WithKey(r, Key, k) == WithKey(assets, Key, k) {
      NumberedOnlyWithKey(assets, k);
    }
    assert forall a :: a in r <==> a in multiset(NumberedOnly(assets));
    r
  }

  /** The level list: the URLs of the numbered photos in level order; when there is none, the
      URL of `photo.jpg` if it exists, else the placeholder. Never empty. */
  function LevelImages(assets: seq<Asset>, fallback: Option<string>): (r: seq<string>)
    ensures |r| > 0
    ensures SelectLevels(assets) != [] ==>
      |r| == |SelectLevels(assets)| && forall i :: 0 <= i < |r| ==> r[i] == SelectLevels(assets)[i].url
    ensures SelectLevels(assets) == [] ==>
      r == [match fallback case Some(u) => u case None => PLACEHOLDER_URL]
  {
    var selected := SelectLevels(assets);
    if |selected| > 0 then seq(|selected|, i requires 0 <= i < |selected| => selected[i].url)
    else
      match fallback
      case Some(u) => [u]
      case None => [PLACEHOLDER_URL]
  }
}
