/** Price normalisation: the `clean_price` validator of `ProboEvent`
    (probo.py:30-33), which applies Python's `str.replace(CurrencyPrefix, '')`
    to `yes_price` and `no_price`. */
module Price {
  import opened Wrappers

  /** The literal removed from price strings: the rupee sign and a space. */
  const CurrencyPrefix: string := "₹ "

  /** The currency prefix starts at index i of s. */
  predicate OccursAt(s: string, i: int) {
    0 <= i && i + |CurrencyPrefix| <= |s| && s[i..i + |CurrencyPrefix|] == CurrencyPrefix
  }

  /** The leftmost occurrence of the prefix at or after index `from`, as
      `str.find` reports it. */
  function FindFrom(s: string, from: nat): (r: Option<nat>)
    requires from <= |s|
    ensures r.Some? ==> from <= r.value && OccursAt(s, r.value)
    ensures r.Some? ==> forall j :: from <= j < r.value ==> !OccursAt(s, j)
    ensures r.None? ==> forall j :: from <= j ==> !OccursAt(s, j)
    decreases |s| - from
  {
    if from + |CurrencyPrefix| > |s| then None
    else if OccursAt(s, from) then Some(from)
    else FindFrom(s, from + 1)
  }

  /** `s.replace(CurrencyPrefix, '')`: find the leftmost occurrence, keep what
      precedes it, drop it, and carry on after it, so occurrences are removed
      left to right and never overlap. */
  function CleanPrice(s: string): (r: string)
    ensures |r| <= |s|
    ensures r == s <==> forall j :: !OccursAt(s, j)
    decreases |s|
  {
    match FindFrom(s, 0)
    case None => s
    case Some(i) => s[..i] + CleanPrice(s[i + |CurrencyPrefix|..])
  }

  /** The number of occurrences `CleanPrice` removes. */
  function Removed(s: string): nat
    decreases |s|
  {
    match FindFrom(s, 0)
    case None => 0
    case Some(i) => 1 + Removed(s[i + |CurrencyPrefix|..])
  }

  /** Reference definition: scan left to right one character at a time,
      dropping the prefix wherever it starts at the scan position. */
  function Scan(s: string): (r: string)
    decreases |s|
  {
    if OccursAt(s, 0) then Scan(s[|CurrencyPrefix|..])
    else if s == [] then []
    else [s[0]] + Scan(s[1..])
  }

  lemma OccursAtTail(s: string, j: int)
    requires |s| > 0 && 0 <= j
    ensures OccursAt(s[1..], j) <==> OccursAt(s, j + 1)
  {
    if 0 <= j && j + |CurrencyPrefix| <= |s| - 1 {
      assert s[1..][j..j + |CurrencyPrefix|] == s[j + 1..j + 1 + |CurrencyPrefix|];
    }
  }

  lemma {:induction false} ScanKeepsUntil(s: string, i: nat)
    requires i <= |s|
    requires forall j :: 0 <= j < i ==> !OccursAt(s, j)
    ensures Scan(s) == s[..i] + Scan(s[i..])
    decreases i
  {
    if i > 0 {
      assert !OccursAt(s, 0);
      var t := s[1..];
      assert Scan(s) == [s[0]] + Scan(t);
      forall j | 0 <= j < i - 1
        ensures !OccursAt(t, j)
      {
        OccursAtTail(s, j);
      }
      ScanKeepsUntil(t, i - 1);
      assert t[i - 1..] == s[i..];
      assert [s[0]] + t[..i - 1] == s[..i];
    }
  }

  /** `CleanPrice` agrees with the character scan on every string. */
  lemma {:induction false} CleanPriceIsScan(s: string)
    ensures CleanPrice(s) == Scan(s)
    decreases |s|
  {
    match FindFrom(s, 0)
    case None =>
      ScanKeepsUntil(s, |s|);
      assert s[..|s|] == s;
    case Some(i) =>
      ScanKeepsUntil(s, i);
      var rest := s[i..];
      assert rest[0..|CurrencyPrefix|] == s[i..i + |CurrencyPrefix|];
      assert OccursAt(rest, 0);
      assert rest[|CurrencyPrefix|..] == s[i + |CurrencyPrefix|..];
      CleanPriceIsScan(s[i + |CurrencyPrefix|..]);
  }

  /** Each removal shortens the string by the prefix's two characters. */
  lemma {:induction false} CleanPriceLength(s: string)
    ensures |CleanPrice(s)| == |s| - |CurrencyPrefix| * Removed(s)
    decreases |s|
  {
    match FindFrom(s, 0)
    case None =>
    case Some(i) =>
      CleanPriceLength(s[i + |CurrencyPrefix|..]);
  }

  /** A price without the prefix is left unchanged: cleaning an already clean
      price is a no-op. */
  lemma CleanPriceUnchanged(s: string)
    requires forall j :: !OccursAt(s, j)
    ensures CleanPrice(s) == s
    ensures Removed(s) == 0
  {
  }

  /** A leading prefix in front of a clean amount is removed. */
  lemma CleanPriceStripsPrefix(s: string)
    requires forall j :: !OccursAt(s, j)
    ensures CleanPrice(CurrencyPrefix + s) == s
    ensures Removed(CurrencyPrefix + s) == 1
  {
    var t := CurrencyPrefix + s;
    assert OccursAt(t, 0);
    assert t[|CurrencyPrefix|..] == s;
  }

  /** Removal is not repeated on what it leaves behind: "₹₹  " cleans to
      "₹ ", which still holds the prefix, so cleaning is not idempotent. */
  lemma CleanPriceMayLeavePrefix()
    ensures CleanPrice("₹₹  ") == CurrencyPrefix
    ensures CleanPrice(CleanPrice("₹₹  ")) == ""
  {
    var s := "₹₹  ";
    assert s[0..2][1] != CurrencyPrefix[1];
    assert !OccursAt(s, 0);
    assert OccursAt(s, 1);
    assert FindFrom(s, 0) == Some(1);
    assert s[..1] + s[3..] == CurrencyPrefix;
    assert s[3..] == " ";
    assert FindFrom(" ", 0) == None;
    CleanPriceStripsPrefix("");
  }
}
