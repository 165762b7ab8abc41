/** Finding a slug that no other restaurant holds: base, base-1, base-2, ... */
module SlugAllocator {
  import opened Slugs

  /** Python's `str(n)` for a natural number. */
  function Digits(n: nat): (s: string)
    ensures s != "" && forall c :: c in s ==> '0' <= c <= '9'
  {
    if n < 10 then [(n + '0' as int) as char]
    else Digits(n / 10) + [(n % 10 + '0' as int) as char]
  }

  /** Reading decimal digits back. */
  function Value(s: string): int {
    if s == "" then 0 else 10 * Value(s[..|s| - 1]) + (s[|s| - 1] as int - '0' as int)
  }

  /** The digits are the number's, without leading zeros. */
  lemma {:induction false} DigitsRead(n: nat)
    ensures Value(Digits(n)) == n && (Digits(n)[0] == '0' ==> n == 0)
  {
    var s := Digits(n);
    if 10 <= n {
      DigitsRead(n / 10);
      assert s[..|s| - 1] == Digits(n / 10);
    } else {
      assert s[..0] == "" && Value(s[..0]) == 0;
    }
  }

  lemma {:induction false} DigitsInjective(m: nat, n: nat)
    requires Digits(m) == Digits(n)
    ensures m == n
  {
    var s, t := Digits(m), Digits(n);
    if m < 10 && n < 10 {
      assert s[0] == t[0];
    } else if m >= 10 && n >= 10 {
      assert s[..|s| - 1] == Digits(m / 10) && t[..|t| - 1] == Digits(n / 10);
      DigitsInjective(m / 10, n / 10);
      assert s[|s| - 1] == t[|t| - 1];
    }
  }

  lemma {:induction false} DigitsMonotone(m: nat, n: nat)
    requires m <= n
    ensures |Digits(m)| <= |Digits(n)|
  {
    if 10 <= m { DigitsMonotone(m / 10, n / 10); }
  }

  /** The k-th slug the search asks about. */
  function Candidate(base: string, k: nat): string {
    if k == 0 then base else base + "-" + Digits(k)
  }

  lemma CandidateInjective(base: string, j: nat, k: nat)
    requires Candidate(base, j) == Candidate(base, k)
    ensures j == k
  {
    if 0 < j && 0 < k {
      var s, t := Candidate(base, j), Candidate(base, k);
      assert s[|base| + 1..] == Digits(j) && t[|base| + 1..] == Digits(k);
      DigitsInjective(j, k);
    }
  }

  /** Pigeonhole: `k` taken candidates need `k` taken slugs. */
  lemma {:induction false} Pigeonhole(base: string, taken: set<string>, k: nat)
    requires forall j :: 0 <= j < k ==> Candidate(base, j) in taken
    ensures k <= |taken|
    decreases k
  {
    if 0 < k {
      var last := Candidate(base, k - 1);
      forall j | 0 <= j < k - 1 ensures Candidate(base, j) in taken - {last} {
        if Candidate(base, j) == last { CandidateInjective(base, j, k - 1); }
      }
      Pigeonhole(base, taken - {last}, k - 1);
    }
  }

  /** The first free candidate from the k-th on, when all before it are taken. */
  function FreeFrom(base: string, taken: set<string>, k: nat): (r: nat)
    requires forall j :: 0 <= j < k ==> Candidate(base, j) in taken
    ensures k <= r <= |taken| && Candidate(base, r) !in taken
    ensures forall j :: 0 <= j < r ==> Candidate(base, j) in taken
    decreases |taken| - k
  {
    Pigeonhole(base, taken, k);
    if Candidate(base, k) !in taken then k
    else
      Pigeonhole(base, taken, k + 1);
      FreeFrom(base, taken, k + 1)
  }

  function FreeIndex(base: string, taken: set<string>): nat {
    FreeFrom(base, taken, 0)
  }

  function FirstFree(base: string, taken: set<string>): string {
    Candidate(base, FreeIndex(base, taken))
  }

  /** The allocated slug is free, every earlier candidate is taken, the counter never
      passes the number of taken slugs, and no other candidate has these properties. */
  lemma FirstFreeIsFirst(base: string, taken: set<string>, k: nat)
    ensures FirstFree(base, taken) !in taken && FreeIndex(base, taken) <= |taken|
    ensures FreeIndex(base, taken) == k <==>
              Candidate(base, k) !in taken && forall j :: 0 <= j < k ==> Candidate(base, j) in taken
  {
    if Candidate(base, k) !in taken && forall j :: 0 <= j < k ==> Candidate(base, j) in taken {
      assert !(FreeIndex(base, taken) < k) && !(k < FreeIndex(base, taken));
    }
  }

  /** A generated base gives a slug of at most 101 + digits(N) characters over N taken ones. */
  lemma SlugLength(text: string, taken: set<string>)
    ensures |FirstFree(GenerateSlug(text), taken)| <= 101 + |Digits(|taken|)|
  {
    SlugNormalForm(Lower(text), DEFAULT_LENGTH);
    DigitsMonotone(FreeIndex(GenerateSlug(text), taken), |taken|);
  }

  function Power10(n: nat): nat { if n == 0 then 1 else 10 * Power10(n - 1) }

  lemma {:induction false} DigitsBelowPower(n: nat, d: nat)
    requires 1 <= d
    ensures n < Power10(d) <==> |Digits(n)| <= d
  {
    if n < 10 {
      assert Power10(d) == 10 * Power10(d - 1);
      PowerPositive(d - 1);
    } else if d == 1 {
      assert Power10(1) == 10 * Power10(0);
      assert |Digits(n)| == |Digits(n / 10)| + 1;
    } else {
      DigitsBelowPower(n / 10, d - 1);
      assert Power10(d) == 10 * Power10(d - 1);
    }
  }

  lemma PowerPositive(n: nat)
    ensures Power10(n) >= 1
  {
  }

  /** The slug fits its VARCHAR(150) column while there are fewer than 10^49 restaurants. */
  lemma SlugFitsColumn(text: string, taken: set<string>)
    requires |taken| < Power10(49)
    ensures |FirstFree(GenerateSlug(text), taken)| <= 150
  {
    DigitsBelowPower(|taken|, 49);
    SlugLength(text, taken);
  }

  /** A suffixed candidate is in normal form exactly when its base is not empty. */
  lemma SuffixForm(base: string, k: nat)
    requires Normal(base) && 0 < k
    ensures Normal(Candidate(base, k)) <==> base != ""
  {
    var s, d := Candidate(base, k), Digits(k);
    assert forall i :: |base| < i < |s| ==> s[i] == d[i - |base| - 1] && s[i] in d;
    assert s[|base|] == '-';
    assert forall i :: 0 <= i < |base| ==> s[i] == base[i];
  }

  /** An allocated slug is in normal form exactly when the name leaves some slug character or the empty
      slug is still free. */
  lemma AllocatedForm(name: string, taken: set<string>)
    ensures Normal(FirstFree(GenerateSlug(name), taken)) <==> GenerateSlug(name) != "" || "" !in taken
  {
    var base := GenerateSlug(name);
    SlugNormalForm(Lower(name), DEFAULT_LENGTH);
    FirstFreeIsFirst(base, taken, 0);
    if 0 < FreeIndex(base, taken) { SuffixForm(base, FreeIndex(base, taken)); }
  }

  /** A name of one exclamation mark is such a name: the second restaurant that takes it is at "-1". */
  lemma PunctuationOnlyName()
    ensures GenerateSlug("!") == ""
    ensures FirstFree(GenerateSlug("!"), {""}) == "-1" && !Normal("-1")
  {
    assert Keep(Hyphenate(Lower("!"))) == "";
    FirstFreeIsFirst("", {""}, 1);
    assert "" + "-" + Digits(1) == "-1";
    assert forall j :: 0 <= j < 1 ==> Candidate("", j) in {""};
  }

  /** `make_unique_slug`: at most 99 suffixes, then an unchecked random one. */
  function BoundedFree(base: string, existing: set<string>, shortUuid: string): string {
    if FreeIndex(base, existing) < 100 then FirstFree(base, existing) else base + "-" + shortUuid
  }

  method MakeUniqueSlug(base: string, existing: set<string>, shortUuid: string) returns (slug: string)
    ensures slug == BoundedFree(base, existing, shortUuid)
  {
    if base !in existing {
      FirstFreeIsFirst(base, existing, 0);
      return base;
    }
    for i := 1 to 100
      invariant forall j :: 0 <= j < i ==> Candidate(base, j) in existing
    {
      var candidate := base + "-" + Digits(i);
      if candidate !in existing {
        FirstFreeIsFirst(base, existing, i);
        return candidate;
      }
    }
    slug := base + "-" + shortUuid;
  }

  /** The bounded search gives the unbounded one's slug when one of the first hundred
      candidates is free, which any table of at most 99 slugs guarantees; otherwise its
      answer is free exactly when the random suffix happens to be. */
  lemma BoundedSearchAgrees(base: string, existing: set<string>, shortUuid: string)
    ensures (exists k :: 0 <= k < 100 && Candidate(base, k) !in existing) ==>
              BoundedFree(base, existing, shortUuid) == FirstFree(base, existing)
    ensures |existing| <= 99 ==> exists k :: 0 <= k < 100 && Candidate(base, k) !in existing
    ensures BoundedFree(base, existing, shortUuid) !in existing <==>
              || (exists k :: 0 <= k < 100 && Candidate(base, k) !in existing)
              || base + "-" + shortUuid !in existing
  {
    FirstFreeIsFirst(base, existing, FreeIndex(base, existing));
    assert Candidate(base, FreeIndex(base, existing)) !in existing;
  }

  /** A table on which the bounded search returns a slug that is already in use. */
  lemma BoundedSearchMayCollide()
    ensures var existing := (set k | 0 <= k < 100 :: Candidate("a", k)) + {"a-0123abcd"};
            BoundedFree("a", existing, "0123abcd") in existing
  {
    var existing := (set k | 0 <= k < 100 :: Candidate("a", k)) + {"a-0123abcd"};
    BoundedSearchAgrees("a", existing, "0123abcd");
    assert "a" + "-" + "0123abcd" == "a-0123abcd";
  }
}
