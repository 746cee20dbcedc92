/** The search for a free username (server/ws_server.py). */
module Names {

  function Digit(n: nat): char
    requires n < 10
  {
    '0' + n as char
  }

  function Decimal(n: nat): string {
    if n < 10 then [Digit(n)] else Decimal(n / 10) + [Digit(n % 10)]
  }

  function Suffixed(base: string, k: nat): string {
    base + "(" + Decimal(k) + ")"
  }

  /** The k-th name tried: the requested one, then with (1), (2), ... appended. */
  function Candidate(base: string, k: nat): string {
    if k == 0 then base else Suffixed(base, k)
  }

  // -------------------------------------------------------------------------
  // Lower-casing
  // -------------------------------------------------------------------------

  /** Parentheses and digits have no case and do not change the lower case of what stands before them. */
  ghost predicate KeepsSuffix(lower: string -> string) {
    forall s, k: nat :: lower(Suffixed(s, k)) == Suffixed(lower(s), k)
  }

  /** Any lower-casing of that kind; it may map, add or drop characters, and may look at their neighbours. */
  type Lowering = lower: string -> string | KeepsSuffix(lower)
    witness (s: string) => s

  function LowerChar(c: char): char {
    if 'A' <= c <= 'Z' then c + 32 as char else c
  }

  function AsciiLower(s: string): string {
    seq(|s|, i requires 0 <= i < |s| => LowerChar(s[i]))
  }

  /** A to Z are mapped to a to z in order, and no other character is changed. */
  lemma AsciiLowerExact(s: string, i: nat)
    requires i < |s|
    ensures |AsciiLower(s)| == |s|
    ensures 65 <= s[i] as int <= 90 ==> AsciiLower(s)[i] as int == s[i] as int + 32
    ensures !(65 <= s[i] as int <= 90) ==> AsciiLower(s)[i] == s[i]
  {
  }

  lemma AsciiLowerConcat(s: string, t: string)
    ensures AsciiLower(s + t) == AsciiLower(s) + AsciiLower(t)
  {
  }

  lemma {:induction false} AsciiLowerDecimal(n: nat)
    ensures AsciiLower(Decimal(n)) == Decimal(n)
  {
    if n < 10 {
    } else {
      AsciiLowerDecimal(n / 10);
      AsciiLowerConcat(Decimal(n / 10), [Digit(n % 10)]);
      assert AsciiLower([Digit(n % 10)]) == [Digit(n % 10)];
    }
  }

  /** The letters A to Z mapped to a to z are such a lower-casing. */
  lemma AsciiKeepsSuffix()
    ensures KeepsSuffix(AsciiLower)
  {
    forall s: string, k: nat
      ensures AsciiLower(Suffixed(s, k)) == Suffixed(AsciiLower(s), k)
    {
      AsciiLowerDecimal(k);
      AsciiLowerConcat(s, "(");
      AsciiLowerConcat(s + "(", Decimal(k));
      AsciiLowerConcat(s + "(" + Decimal(k), ")");
      assert AsciiLower("(") == "(" && AsciiLower(")") == ")";
    }
  }

  // -------------------------------------------------------------------------
  // The search
  // -------------------------------------------------------------------------

  function Value(s: string): int {
    if s == "" then 0 else 10 * Value(s[..|s| - 1]) + (s[|s| - 1] as int - '0' as int)
  }

  lemma {:induction false} DecimalValue(n: nat)
    ensures Value(Decimal(n)) == n
  {
    if n < 10 {
      assert [Digit(n)][..0] == "";
    } else {
      DecimalValue(n / 10);
      var d := Decimal(n);
      assert d[..|d| - 1] == Decimal(n / 10);
    }
  }

  /** No two candidates collide, even without regard to case. */
  lemma CandidatesDiffer(lower: Lowering, base: string, i: nat, j: nat)
    requires i < j
    ensures lower(Candidate(base, i)) != lower(Candidate(base, j))
  {
    var low := lower(base);
    assert lower(Candidate(base, j)) == Suffixed(low, j);
    if i > 0 {
      assert lower(Candidate(base, i)) == Suffixed(low, i);
      DecimalValue(i);
      DecimalValue(j);
      var x, y := Suffixed(low, i), Suffixed(low, j);
      assert x[|low| + 1..|x| - 1] == Decimal(i);
      assert y[|low| + 1..|y| - 1] == Decimal(j);
    }
  }

  function Tried(lower: Lowering, base: string, k: nat): set<string> {
    set i: nat | i < k :: lower(Candidate(base, i))
  }

  lemma {:induction false} TriedSize(lower: Lowering, base: string, k: nat)
    ensures |Tried(lower, base, k)| == k
  {
    if k == 0 {
    } else {
      TriedSize(lower, base, k - 1);
      TriedGrows(lower, base, k - 1);
    }
  }

  lemma TriedGrows(lower: Lowering, base: string, k: nat)
    ensures Tried(lower, base, k + 1) == Tried(lower, base, k) + {lower(Candidate(base, k))}
    ensures lower(Candidate(base, k)) !in Tried(lower, base, k)
  {
    forall i: nat | i < k
      ensures lower(Candidate(base, i)) != lower(Candidate(base, k))
    {
      CandidatesDiffer(lower, base, i, k);
    }
  }

  /** As many candidates as names are taken, all taken, leave the next one free. */
  lemma Pigeonhole(lower: Lowering, taken: set<string>, base: string, k: nat)
    requires Tried(lower, base, k) <= taken
    ensures k <= |taken|
  {
    TriedSize(lower, base, k);
    assert taken == Tried(lower, base, k) + (taken - Tried(lower, base, k));
  }

  /** The least free suffix from k on. */
  function LeastFree(lower: Lowering, taken: set<string>, base: string, k: nat): (r: nat)
    requires Tried(lower, base, k) <= taken
    ensures lower(Candidate(base, r)) !in taken
    ensures forall i: nat :: i < r ==> lower(Candidate(base, i)) in taken
    ensures k <= r <= |taken|
    decreases |taken| - k
  {
    Pigeonhole(lower, taken, base, k);
    if lower(Candidate(base, k)) in taken then
      TriedGrows(lower, base, k);
      Pigeonhole(lower, taken, base, k + 1);
      LeastFree(lower, taken, base, k + 1)
    else
      assert forall i: nat :: i < k ==> lower(Candidate(base, i)) in Tried(lower, base, k);
      k
  }

  function UniqueName(lower: Lowering, taken: set<string>, requested: string): string {
    Candidate(requested, LeastFree(lower, taken, requested, 0))
  }

  /** s is the decimal numeral of n: digits only, none in front that does not count, and worth n. */
  predicate IsNumeral(s: string, n: nat) {
    && s != "" && (forall i :: 0 <= i < |s| ==> '0' <= s[i] <= '9')
    && (|s| > 1 ==> s[0] != '0') && Value(s) == n
  }

  lemma {:induction false} DecimalIsNumeral(n: nat)
    ensures IsNumeral(Decimal(n), n)
  {
    DecimalValue(n);
    if n < 10 {
    } else {
      DecimalIsNumeral(n / 10);
      LeadingDigit(n / 10);
    }
  }

  lemma {:induction false} LeadingDigit(n: nat)
    requires n >= 1
    ensures Decimal(n) != "" && Decimal(n)[0] != '0'
  {
    if n < 10 {
    } else {
      LeadingDigit(n / 10);
    }
  }

  /** A free name is kept; a taken one gets a number in parentheses, the first from 1 on that makes it free. */
  lemma UniqueNameForm(lower: Lowering, taken: set<string>, requested: string)
    ensures var name := UniqueName(lower, taken, requested);
      && lower(name) !in taken
      && (lower(requested) !in taken ==> name == requested)
      && (lower(requested) in taken ==>
            exists k: nat, number: string ::
              && 1 <= k <= |taken| && IsNumeral(number, k) && name == requested + "(" + number + ")"
              && forall j: nat :: 1 <= j < k ==> lower(requested + "(" + Decimal(j) + ")") in taken)
  {
    var k := LeastFree(lower, taken, requested, 0);
    assert Candidate(requested, 0) == requested;
    if lower(requested) in taken {
      DecimalIsNumeral(k);
      forall j: nat | 1 <= j < k
        ensures lower(requested + "(" + Decimal(j) + ")") in taken
      {
        assert Candidate(requested, j) == requested + "(" + Decimal(j) + ")";
      }
      assert IsNumeral(Decimal(k), k);
    }
  }

  /** The loop looks at no more than |taken| + 1 names, and finds the least free one. */
  method UniqueUsername(lower: Lowering, taken: set<string>, requested: string)
    returns (final: string, ghost tries: nat)
    ensures final == UniqueName(lower, taken, requested)
    ensures lower(final) !in taken
    ensures lower(requested) !in taken ==> final == requested
    ensures 1 <= tries <= |taken| + 1
  {
    final, tries := requested, 1;
    var n := 1;
    while lower(final) in taken
      invariant n >= 1 && tries == n && final == Candidate(requested, n - 1)
      invariant Tried(lower, requested, n - 1) <= taken
      invariant LeastFree(lower, taken, requested, n - 1) == LeastFree(lower, taken, requested, 0)
      invariant n <= |taken| + 1
      decreases |taken| + 1 - n
    {
      TriedGrows(lower, requested, n - 1);
      Pigeonhole(lower, taken, requested, n);
      final := Candidate(requested, n);
      n := n + 1;
      tries := tries + 1;
    }
  }
}
