/**
 * Username derivation for new federated accounts
 * (OAuth2Service.generateUsernameFromEmail): the part of the email before
 * the first '@', then that base followed by 1, 2, ... until a name is free.
 * The loop terminates because the candidates are pairwise distinct and only
 * finitely many names are taken.
 */
module Usernames {
  import opened Common

  function Digit(d: nat): (c: char)
    requires d < 10
    ensures '0' <= c <= '9'
  {
    (48 + d) as char
  }

  /** The number a string of decimal digits spells, most significant digit first. */
  function DigitsValue(s: string): nat
    requires forall i | 0 <= i < |s| :: '0' <= s[i] <= '9'
  {
    if s == [] then 0 else DigitsValue(s[..|s| - 1]) * 10 + (s[|s| - 1] as int - '0' as int)
  }

  /** Decimal rendering of a counter value, as string concatenation prints an int. */
  function DecimalString(n: nat): (s: string)
    ensures |s| >= 1
    ensures n < 10 <==> |s| == 1
    ensures forall i | 0 <= i < |s| :: '0' <= s[i] <= '9'
    ensures DigitsValue(s) == n
    ensures |s| > 1 ==> s[0] != '0'
    decreases n
  {
    if n < 10 then [Digit(n)]
    else
      var p := DecimalString(n / 10);
      var s := p + [Digit(n % 10)];
      assert s[..|s| - 1] == p;
      s
  }

  lemma {:induction false} DecimalStringDistinct(a: nat, b: nat)
    requires a != b
    ensures DecimalString(a) != DecimalString(b)
    decreases a
  {
    var sa, sb := DecimalString(a), DecimalString(b);
    if a >= 10 && b >= 10 {
      if a % 10 == b % 10 {
        DecimalStringDistinct(a / 10, b / 10);
        assert sa[..|sa| - 1] == DecimalString(a / 10);
        assert sb[..|sb| - 1] == DecimalString(b / 10);
      } else {
        assert sa[|sa| - 1] == Digit(a % 10);
        assert sb[|sb| - 1] == Digit(b % 10);
      }
    } else if a < 10 && b < 10 {
      assert sa[0] == Digit(a);
      assert sb[0] == Digit(b);
    }
  }

  /** The k-th name tried: the base itself for k = 0, else the base followed by k. */
  function Candidate(base: string, k: nat): (name: string)
    ensures base <= name
    ensures k == 0 <==> |name| == |base|
  {
    if k == 0 then base else base + DecimalString(k)
  }

  lemma CandidateDistinct(base: string, j: nat, k: nat)
    requires j != k
    ensures Candidate(base, j) != Candidate(base, k)
  {
    if j != 0 && k != 0 {
      DecimalStringDistinct(j, k);
      assert Candidate(base, j)[|base|..] == DecimalString(j);
      assert Candidate(base, k)[|base|..] == DecimalString(k);
    }
  }

  /** The first k names tried. */
  function CandidatesBelow(base: string, k: nat): set<string>
  {
    if k == 0 then {} else CandidatesBelow(base, k - 1) + {Candidate(base, k - 1)}
  }

  /** A candidate is not among those tried before it. */
  lemma {:induction false} NotYetTried(base: string, n: nat, k: nat)
    requires k <= n
    ensures Candidate(base, n) !in CandidatesBelow(base, k)
  {
    if k > 0 {
      NotYetTried(base, n, k - 1);
      CandidateDistinct(base, k - 1, n);
    }
  }

  lemma {:induction false} CandidatesBelowSize(base: string, k: nat)
    ensures |CandidatesBelow(base, k)| == k
  {
    if k > 0 {
      CandidatesBelowSize(base, k - 1);
      NotYetTried(base, k - 1, k - 1);
    }
  }

  /** The first k candidates, when all are taken, form a subset of the taken names. */
  lemma {:induction false} CandidatesBelowTaken(base: string, taken: set<string>, k: nat)
    requires forall j | 0 <= j < k :: Candidate(base, j) in taken
    ensures CandidatesBelow(base, k) <= taken
  {
    if k > 0 {
      CandidatesBelowTaken(base, taken, k - 1);
    }
  }

  /** If the first k candidates are all taken, at least k names are taken. */
  lemma CandidatesBound(base: string, taken: set<string>, k: nat)
    requires forall j | 0 <= j < k :: Candidate(base, j) in taken
    ensures k <= |taken|
  {
    CandidatesBelowSize(base, k);
    CandidatesBelowTaken(base, taken, k);
    var below := CandidatesBelow(base, k);
    assert taken == below + (taken - below);
    assert |taken| == |below| + |taken - below|;
  }

  /** The index of the first free candidate at or after k. */
  function FirstFree(base: string, taken: set<string>, k: nat): (n: nat)
    requires forall j | 0 <= j < k :: Candidate(base, j) in taken
    ensures k <= n
    ensures Candidate(base, n) !in taken
    ensures forall j | 0 <= j < n :: Candidate(base, j) in taken
    decreases |taken| - k
  {
    CandidatesBound(base, taken, k);
    if Candidate(base, k) !in taken then k
    else
      CandidatesBound(base, taken, k + 1);
      FirstFree(base, taken, k + 1)
  }

  /** The name the loop settles on: the first candidate not taken. */
  function GeneratedUsername(base: string, taken: set<string>): (name: string)
    ensures name !in taken
    ensures base <= name
    ensures exists k: nat :: name == Candidate(base, k) && forall j | 0 <= j < k :: Candidate(base, j) in taken
  {
    Candidate(base, FirstFree(base, taken, 0))
  }

  /** The generated name is the only one meeting its specification: minimality pins it down. */
  lemma GeneratedUsernameUnique(base: string, taken: set<string>, k: nat)
    requires Candidate(base, k) !in taken
    requires forall j | 0 <= j < k :: Candidate(base, j) in taken
    ensures GeneratedUsername(base, taken) == Candidate(base, k)
  {
    var n := FirstFree(base, taken, 0);
    if n != k {
      CandidateDistinct(base, n, k);
    }
  }

  /** With "jdoe" and "jdoe1" taken, the next name tried and returned is "jdoe2". */
  lemma CollisionAppendsCounter()
    ensures GeneratedUsername("jdoe", {"jdoe", "jdoe1"}) == "jdoe2"
  {
    var taken := {"jdoe", "jdoe1"};
    assert Candidate("jdoe", 1) == "jdoe1";
    assert Candidate("jdoe", 2) == "jdoe2";
    assert "jdoe2" != "jdoe" && "jdoe2" != "jdoe1";
    GeneratedUsernameUnique("jdoe", taken, 2);
  }

  /**
   * The counter loop of generateUsernameFromEmail: try the base, then base + counter with the
   * counter starting at 1, while the name is taken.
   */
  method GenerateUsername(base: string, taken: set<string>) returns (username: string)
    ensures username !in taken
    ensures username == GeneratedUsername(base, taken)
  {
    username := base;
    var counter := 1;
    while username in taken
      invariant 1 <= counter
      invariant username == Candidate(base, counter - 1)
      invariant forall j | 0 <= j < counter - 1 :: Candidate(base, j) in taken
      decreases |taken| - (counter - 1)
    {
      CandidatesBound(base, taken, counter);
      username := base + DecimalString(counter);
      counter := counter + 1;
    }
    GeneratedUsernameUnique(base, taken, counter - 1);
  }

  /** The characters before the first '@' (all of them when there is none). */
  function BeforeFirstAt(s: string): (prefix: string)
    ensures prefix <= s
    ensures '@' !in prefix
    ensures |prefix| < |s| ==> s[|prefix|] == '@'
  {
    if s == [] || s[0] == '@' then [] else [s[0]] + BeforeFirstAt(s[1..])
  }

  /**
   * email.split("@")[0]. Java drops trailing empty pieces, so a non-empty
   * email made only of '@' splits into no pieces at all and indexing fails.
   */
  function LocalPart(email: string): (r: Option<string>)
    ensures r.None? <==> email != [] && forall i | 0 <= i < |email| :: email[i] == '@'
    ensures r.Some? ==> r.value == BeforeFirstAt(email)
  {
    if email != [] && forall i | 0 <= i < |email| :: email[i] == '@' then None
    else Some(BeforeFirstAt(email))
  }
}
