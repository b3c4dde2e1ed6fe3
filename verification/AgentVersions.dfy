/** Version precedence for the upgrade hint (server/ws-agent.js).

    `Number(digits)` rounds long numerals, so it is a parameter: the order laws hold for whatever it
    returns, and the comparison with Semantic Versioning 2.0.0 asks only that it keeps the order of the
    values. Infinity counts as a number above all others.
  */
module AgentVersions {
  import opened Text

  type NumberOf = string -> nat

  datatype Version = Version(core: seq<nat>, prerelease: seq<string>)

  predicate IsDigit(c: char) { '0' <= c <= '9' }

  predicate IsTagChar(c: char) {
    IsDigit(c) || 'A' <= c <= 'Z' || 'a' <= c <= 'z' || c == '.' || c == '-'
  }

  predicate IsNumeric(id: string) {
    id != "" && forall i :: 0 <= i < |id| ==> IsDigit(id[i])
  }

  // ---------------------------------------------------------------- the comparison

  /** JavaScript `<` on strings. */
  predicate StringLess(x: string, y: string) {
    y != "" && (x == "" || x[0] < y[0] || (x[0] == y[0] && StringLess(x[1..], y[1..])))
  }

  predicate NewerIdentifier(number: NumberOf, left: string, right: string) {
    if IsNumeric(left) && IsNumeric(right) then number(left) > number(right)
    else if IsNumeric(left) != IsNumeric(right) then !IsNumeric(left)
    else StringLess(right, left)
  }

  predicate NewerPrerelease(number: NumberOf, next: seq<string>, installed: seq<string>) {
    if next == [] then false
    else if installed == [] then true
    else if next[0] == installed[0] then NewerPrerelease(number, next[1..], installed[1..])
    else NewerIdentifier(number, next[0], installed[0])
  }

  predicate GreaterCore(next: seq<nat>, installed: seq<nat>)
    requires |next| == |installed|
  {
    next != [] && (next[0] > installed[0] || (next[0] == installed[0] && GreaterCore(next[1..], installed[1..])))
  }

  predicate Newer(number: NumberOf, next: Version, installed: Version)
    requires |next.core| == |installed.core|
  {
    if next.core != installed.core then GreaterCore(next.core, installed.core)
    else NewerTail(number, next.prerelease, installed.prerelease)
  }

  /** The comparison behind equal cores. */
  predicate NewerTail(number: NumberOf, next: seq<string>, installed: seq<string>) {
    if next == [] || installed == [] then next == [] && installed != []
    else NewerPrerelease(number, next, installed)
  }

  /** The comparison of two texts; a text that is no version is never newer, nor is anything newer than it. */
  predicate NewerText(number: NumberOf, candidate: string, current: string) {
    match (ParseSemver(number, candidate), ParseSemver(number, current))
    case (Some(next), Some(installed)) => Newer(number, next, installed)
    case _ => false
  }

  lemma {:induction false} GreaterCoreFrom(next: seq<nat>, installed: seq<nat>, k: nat)
    requires |next| == |installed| && k < |next| && next[..k] == installed[..k] && next[k] != installed[k]
    ensures GreaterCore(next, installed) == (next[k] > installed[k])
  {
    if k > 0 {
      assert next[0] == next[..k][0] && installed[0] == installed[..k][0];
      assert next[1..][..k - 1] == next[..k][1..] && installed[1..][..k - 1] == installed[..k][1..];
      GreaterCoreFrom(next[1..], installed[1..], k - 1);
    }
  }

  method IsNewerAgentVersion(number: NumberOf, candidate: string, current: string) returns (newer: bool)
    ensures newer == NewerText(number, candidate, current)
  {
    var next, installed := ParseSemver(number, candidate), ParseSemver(number, current);
    if next.None? || installed.None? {
      return false;
    }
    newer := CompareVersions(number, next.value, installed.value);
  }

  method CompareVersions(number: NumberOf, next: Version, installed: Version) returns (newer: bool)
    requires |next.core| == |installed.core| == 3
    ensures newer == Newer(number, next, installed)
  {
    for index := 0 to 3
      invariant next.core[..index] == installed.core[..index]
    {
      if next.core[index] != installed.core[index] {
        GreaterCoreFrom(next.core, installed.core, index);
        return next.core[index] > installed.core[index];
      }
    }
    assert next.core == next.core[..3] == installed.core[..3] == installed.core;
    if |next.prerelease| == 0 || |installed.prerelease| == 0 {
      return |next.prerelease| == 0 && |installed.prerelease| > 0;
    }
    var length := if |next.prerelease| > |installed.prerelease| then |next.prerelease| else |installed.prerelease|;
    var index := 0;
    while index < length
      invariant index <= |next.prerelease| && index <= |installed.prerelease|
      invariant NewerPrerelease(number, next.prerelease, installed.prerelease)
             == NewerPrerelease(number, next.prerelease[index..], installed.prerelease[index..])
    {
      var left := if index < |next.prerelease| then Some(next.prerelease[index]) else None;
      var right := if index < |installed.prerelease| then Some(installed.prerelease[index]) else None;
      if left == right {
        assert next.prerelease[index..][1..] == next.prerelease[index + 1..];
        assert installed.prerelease[index..][1..] == installed.prerelease[index + 1..];
        index := index + 1;
        continue;
      }
      if left.None? || right.None? {
        return right.None?;
      }
      var leftNumeric, rightNumeric := IsNumeric(left.value), IsNumeric(right.value);
      if leftNumeric && rightNumeric {
        return number(left.value) > number(right.value);
      }
      if leftNumeric != rightNumeric {
        return !leftNumeric;
      }
      return StringLess(right.value, left.value);
    }
    return false;
  }

  // ---------------------------------------------------------------- a strict order

  lemma {:induction false} StringOrder(x: string, y: string, z: string)
    ensures !StringLess(x, x)
    ensures StringLess(x, y) ==> !StringLess(y, x)
    ensures StringLess(x, y) && StringLess(y, z) ==> StringLess(x, z)
    ensures StringLess(x, y) || StringLess(y, x) || x == y
  {
    if x != "" {
      if y != "" {
        if z != "" {
          StringOrder(x[1..], y[1..], z[1..]);
        } else {
          StringOrder(x[1..], y[1..], z);
        }
        if x[0] == y[0] && x[1..] == y[1..] {
          assert x == [x[0]] + x[1..] == y;
        }
      } else {
        StringOrder(x[1..], y, z);
      }
    }
  }

  lemma IdentifierOrder(number: NumberOf, a: string, b: string, c: string)
    ensures !NewerIdentifier(number, a, a)
    ensures NewerIdentifier(number, a, b) ==> !NewerIdentifier(number, b, a)
    ensures NewerIdentifier(number, a, b) && NewerIdentifier(number, b, c) ==> NewerIdentifier(number, a, c)
  {
    StringOrder(a, b, c);
    StringOrder(b, a, c);
    StringOrder(c, b, a);
  }

  lemma {:induction false} PrereleaseOrder(number: NumberOf, a: seq<string>, b: seq<string>, c: seq<string>)
    ensures !NewerPrerelease(number, a, a)
    ensures NewerPrerelease(number, a, b) ==> !NewerPrerelease(number, b, a)
    ensures NewerPrerelease(number, a, b) && NewerPrerelease(number, b, c) ==> NewerPrerelease(number, a, c)
  {
    if a != [] {
      PrereleaseOrder(number, a[1..], if b == [] then b else b[1..], if c == [] then c else c[1..]);
      if b != [] {
        IdentifierOrder(number, a[0], b[0], a[0]);
      }
      if b != [] && c != [] {
        IdentifierOrder(number, a[0], b[0], c[0]);
      }
    }
  }

  lemma {:induction false} CoreOrder(a: seq<nat>, b: seq<nat>, c: seq<nat>)
    requires |a| == |b| == |c|
    ensures !GreaterCore(a, a)
    ensures GreaterCore(a, b) ==> !GreaterCore(b, a)
    ensures GreaterCore(a, b) && GreaterCore(b, c) ==> GreaterCore(a, c)
    ensures GreaterCore(a, b) || GreaterCore(b, a) || a == b
  {
    if a != [] {
      CoreOrder(a[1..], b[1..], c[1..]);
      if a[0] == b[0] && a[1..] == b[1..] {
        assert a == [a[0]] + a[1..] == b;
      }
    }
  }

  /** `isNewerAgentVersion` is a strict order on all versions the parser accepts, however long their
      prerelease lists are and however `Number` rounds. */
  lemma NewerIsStrictOrder(number: NumberOf, a: Version, b: Version, c: Version)
    requires |a.core| == |b.core| == |c.core| == 3
    ensures !Newer(number, a, a)
    ensures Newer(number, a, b) ==> !Newer(number, b, a)
    ensures Newer(number, a, b) && Newer(number, b, c) ==> Newer(number, a, c)
  {
    CoreOrder(a.core, b.core, c.core);
    PrereleaseOrder(number, a.prerelease, b.prerelease, c.prerelease);
  }

  // ---------------------------------------------------------------- section 11 of Semantic Versioning 2.0.0

  /** The value a string of digits denotes. */
  function Decimal(digits: string): nat
    requires forall i :: 0 <= i < |digits| ==> IsDigit(digits[i])
  {
    if digits == "" then 0
    else
      assert IsDigit(digits[|digits| - 1]);
      10 * Decimal(digits[..|digits| - 1]) + (digits[|digits| - 1] as int - '0' as int)
  }

  /** What rounding leaves of the values: their order, except that different values may become equal. */
  ghost predicate KeepsOrder(number: NumberOf) {
    forall x, y :: IsNumeric(x) && IsNumeric(y) && Decimal(x) <= Decimal(y) ==> number(x) <= number(y)
  }

  /** Numerals the code can hold apart from all others: values of double precision are exact up to 2^53. */
  const EXACT_LIMIT := 9_007_199_254_740_992

  ghost predicate ExactUpToLimit(number: NumberOf) {
    forall x :: IsNumeric(x) && Decimal(x) <= EXACT_LIMIT ==> number(x) == Decimal(x)
  }

  predicate HasLeadingZero(id: string) {
    IsNumeric(id) && |id| > 1 && id[0] == '0'
  }

  /** Rule 11.4.2: lexical order, stated by the first position at which two strings differ. */
  ghost predicate LexicallyBelow(x: string, y: string) {
    exists k: nat :: FirstDifference(x, y, k) && (k == |x| || (k < |y| && x[k] < y[k]))
  }

  ghost predicate FirstDifference<T>(x: seq<T>, y: seq<T>, k: nat) {
    k <= |x| && k <= |y| && x[..k] == y[..k] && (k < |x| || k < |y|) && (k < |x| && k < |y| ==> x[k] != y[k])
  }

  /** Rules 11.4.1 to 11.4.3. */
  ghost predicate IdentifierBelow(x: string, y: string) {
    if IsNumeric(x) && IsNumeric(y) then Decimal(x) < Decimal(y)
    else if IsNumeric(x) || IsNumeric(y) then IsNumeric(x)
    else LexicallyBelow(x, y)
  }

  /** Rules 11.4 and 11.4.4: the first pair of identifiers that is not of equal precedence decides; if
      there is none, the longer list is higher. */
  ghost predicate PrereleaseBelow(x: seq<string>, y: seq<string>) {
    exists k: nat :: DecidedAt(x, y, k)
  }

  ghost predicate DecidedAt(x: seq<string>, y: seq<string>, k: nat) {
    && k <= |x| && k < |y|
    && (forall i :: 0 <= i < k ==> SamePrecedence(x[i], y[i]))
    && (k == |x| || IdentifierBelow(x[k], y[k]))
  }

  ghost predicate SamePrecedence(x: string, y: string) {
    !IdentifierBelow(x, y) && !IdentifierBelow(y, x)
  }

  /** Rules 11.2 and 11.3. */
  ghost predicate Below(x: Version, y: Version)
    requires |x.core| == |y.core| == 3
  {
    || (exists k: nat :: k < 3 && x.core[..k] == y.core[..k] && x.core[k] < y.core[k])
    || (x.core == y.core && TailBelow(x.prerelease, y.prerelease))
  }

  ghost predicate TailBelow(x: seq<string>, y: seq<string>) {
    x != [] && (y == [] || PrereleaseBelow(x, y))
  }

  lemma {:induction false} DecimalInjective(x: string, y: string)
    requires IsNumeric(x) && IsNumeric(y) && !HasLeadingZero(x) && !HasLeadingZero(y)
    requires Decimal(x) == Decimal(y)
    ensures x == y
    decreases |x|
  {
    var x', y' := x[..|x| - 1], y[..|y| - 1];
    assert x == x' + [x[|x| - 1]] && y == y' + [y[|y| - 1]];
    var dx, dy := x[|x| - 1] as int - '0' as int, y[|y| - 1] as int - '0' as int;
    assert 0 <= dx < 10 && 0 <= dy < 10;
    assert dx == dy && Decimal(x') == Decimal(y');
    if |x| == 1 {
      if |y| > 1 { DecimalPositive(y'); }
    } else if |y| == 1 {
      DecimalPositive(x');
    } else {
      DecimalInjective(x', y');
    }
  }

  lemma {:induction false} DecimalPositive(x: string)
    requires IsNumeric(x) && x[0] != '0'
    ensures Decimal(x) > 0
  {
    if |x| > 1 { DecimalPositive(x[..|x| - 1]); }
  }

  lemma {:induction false} StringLessIsLexical(x: string, y: string)
    ensures StringLess(x, y) <==> LexicallyBelow(x, y)
  {
    if x == "" || y == "" || x[0] != y[0] {
      if StringLess(x, y) {
        assert FirstDifference(x, y, 0);
      }
    } else {
      StringLessIsLexical(x[1..], y[1..]);
      if k: nat :| FirstDifference(x[1..], y[1..], k) && (k == |x[1..]| || (k < |y[1..]| && x[1..][k] < y[1..][k])) {
        assert x[..k + 1] == [x[0]] + x[1..][..k] && y[..k + 1] == [y[0]] + y[1..][..k];
        assert FirstDifference(x, y, k + 1);
      }
      if k: nat :| FirstDifference(x, y, k) && (k == |x| || (k < |y| && x[k] < y[k])) {
        assert k > 0;
        assert x[1..][..k - 1] == x[..k][1..] && y[1..][..k - 1] == y[..k][1..];
        assert FirstDifference(x[1..], y[1..], k - 1);
      }
    }
  }

  lemma IdentifiersAgree(number: NumberOf, x: string, y: string)
    requires KeepsOrder(number)
    ensures x == y ==> SamePrecedence(x, y)
    ensures x != y && !AreRoundedAlike(number, x, y) ==>
              (NewerIdentifier(number, y, x) <==> IdentifierBelow(x, y)) && !SamePrecedence(x, y)
    ensures AreRoundedAlike(number, x, y) ==> !NewerIdentifier(number, y, x)
  {
    StringLessIsLexical(x, y);
    StringLessIsLexical(y, x);
    StringOrder(x, y, x);
  }

  /** Two numerals the code takes for the same number. */
  predicate AreRoundedAlike(number: NumberOf, x: string, y: string) {
    IsNumeric(x) && IsNumeric(y) && number(x) == number(y)
  }

  /** At `k` the lists differ for the first time, by two numerals the code takes for the same number. */
  ghost predicate TiedAt(number: NumberOf, x: seq<string>, y: seq<string>, k: nat) {
    FirstDifference(x, y, k) && k < |x| && k < |y| && AreRoundedAlike(number, x[k], y[k])
  }

  /** Such a tie ends the comparison of the code, while section 11 decides there or later. */
  ghost predicate HidingTie(number: NumberOf, next: seq<string>, installed: seq<string>, k: nat) {
    TiedAt(number, installed, next, k) && PrereleaseBelow(installed[k..], next[k..])
  }

  lemma PrereleaseBelowCons(x: seq<string>, y: seq<string>)
    requires x != [] && y != []
    ensures PrereleaseBelow(x, y) <==>
            if SamePrecedence(x[0], y[0]) then PrereleaseBelow(x[1..], y[1..]) else IdentifierBelow(x[0], y[0])
  {
    if k: nat :| DecidedAt(x[1..], y[1..], k) && SamePrecedence(x[0], y[0]) {
      forall i | 0 <= i < k + 1 ensures SamePrecedence(x[i], y[i]) {
        if i > 0 { assert x[i] == x[1..][i - 1] && y[i] == y[1..][i - 1]; }
      }
      assert DecidedAt(x, y, k + 1);
    }
    if k: nat :| DecidedAt(x, y, k) {
      if k > 0 {
        forall i | 0 <= i < k - 1 ensures SamePrecedence(x[1..][i], y[1..][i]) {
          assert x[i + 1] == x[1..][i] && y[i + 1] == y[1..][i];
        }
        assert DecidedAt(x[1..], y[1..], k - 1);
      }
    }
    if IdentifierBelow(x[0], y[0]) {
      assert DecidedAt(x, y, 0);
    }
  }

  /** On prerelease lists the code misses exactly what a tie hides. */
  lemma {:induction false} PrereleasesAgreeUnlessTied(number: NumberOf, next: seq<string>, installed: seq<string>)
    requires KeepsOrder(number)
    ensures NewerPrerelease(number, next, installed) ==> PrereleaseBelow(installed, next)
    ensures PrereleaseBelow(installed, next) && !NewerPrerelease(number, next, installed)
            <==> exists k: nat :: HidingTie(number, next, installed, k)
  {
    if next == [] || installed == [] {
      if next != [] {
        assert DecidedAt(installed, next, 0);
      }
    } else {
      IdentifiersAgree(number, installed[0], next[0]);
      PrereleaseBelowCons(installed, next);
      if next[0] == installed[0] {
        PrereleasesAgreeUnlessTied(number, next[1..], installed[1..]);
        TieShifts(number, next, installed);
      } else {
        assert installed[0..] == installed && next[0..] == next && FirstDifference(installed, next, 0);
        if AreRoundedAlike(number, installed[0], next[0]) && PrereleaseBelow(installed, next) {
          assert HidingTie(number, next, installed, 0);
        }
        forall k: nat | HidingTie(number, next, installed, k) ensures k == 0 {
          if k > 0 { TieKeepsHead(next, installed, k); }
        }
      }
    }
  }

  lemma TieKeepsHead(next: seq<string>, installed: seq<string>, k: nat)
    requires FirstDifference(installed, next, k) && k > 0
    ensures next[0] == installed[0]
  {
    assert installed[0] == installed[..k][0] == next[..k][0];
  }

  lemma TieDrops(number: NumberOf, next: seq<string>, installed: seq<string>, k: nat)
    requires next != [] && installed != [] && next[0] == installed[0] && HidingTie(number, next, installed, k)
    ensures k > 0 && HidingTie(number, next[1..], installed[1..], k - 1)
  {
    assert next[1..][..k - 1] == next[..k][1..] && installed[1..][..k - 1] == installed[..k][1..];
    assert next[1..][k - 1..] == next[k..] && installed[1..][k - 1..] == installed[k..];
  }

  lemma TieLifts(number: NumberOf, next: seq<string>, installed: seq<string>, k: nat)
    requires next != [] && installed != [] && next[0] == installed[0] && HidingTie(number, next[1..], installed[1..], k)
    ensures HidingTie(number, next, installed, k + 1)
  {
    assert next[..k + 1] == [next[0]] + next[1..][..k] && installed[..k + 1] == [installed[0]] + installed[1..][..k];
    assert next[1..][k..] == next[k + 1..] && installed[1..][k..] == installed[k + 1..];
  }

  lemma TieShifts(number: NumberOf, next: seq<string>, installed: seq<string>)
    requires next != [] && installed != [] && next[0] == installed[0]
    ensures (exists k: nat :: HidingTie(number, next, installed, k))
       <==> (exists k: nat :: HidingTie(number, next[1..], installed[1..], k))
  {
    if k: nat :| HidingTie(number, next, installed, k) {
      TieDrops(number, next, installed, k);
    }
    if k: nat :| HidingTie(number, next[1..], installed[1..], k) {
      TieLifts(number, next, installed, k);
    }
  }

  // ---------------------------------------------------------------- the core numbers

  lemma CoresAgree(next: seq<nat>, installed: seq<nat>)
    requires |next| == |installed| == 3
    ensures next != installed ==> (GreaterCore(next, installed)
              <==> exists k: nat :: k < 3 && installed[..k] == next[..k] && installed[k] < next[k])
    ensures next == installed ==> !exists k: nat :: k < 3 && installed[..k] == next[..k] && installed[k] < next[k]
  {
    forall k: nat | k < 3 && installed[..k] == next[..k] && installed[k] != next[k]
      ensures GreaterCore(next, installed) == (next[k] > installed[k])
    {
      GreaterCoreFrom(next, installed, k);
    }
    if next != installed {
      var k := if next[0] != installed[0] then 0 else if next[1] != installed[1] then 1 else 2;
      assert next == [next[0], next[1], next[2]] && installed == [installed[0], installed[1], installed[2]];
      assert installed[..k] == next[..k];
    }
  }

  /** The value of a numeral of the core. */
  function Exact(digits: string): nat {
    if forall i :: 0 <= i < |digits| ==> IsDigit(digits[i]) then Decimal(digits) else 0
  }

  /** The version the code reads off a spelling. */
  function Read(number: NumberOf, p: Spelling): Version {
    Version(Numbers(number, p.core), p.prerelease)
  }

  /** Section 11 on spellings. */
  ghost predicate SpelledBelow(x: Spelling, y: Spelling)
    requires |x.core| == |y.core| == 3
  {
    Below(Read(Exact, x), Read(Exact, y))
  }

  /** The cores differ for the first time in their `k`-th numerals, which the code takes for the same number. */
  ghost predicate CoreTiedAt(number: NumberOf, n: Spelling, i: Spelling, k: nat) {
    FirstDifference(n.core, i.core, k) && k < |n.core| == |i.core| && number(n.core[k]) == number(i.core[k])
  }

  /** What the code makes of the rest after the `k`-th numerals. */
  predicate NewerBehind(number: NumberOf, n: Spelling, i: Spelling, k: nat)
    requires k < |n.core| == |i.core|
  {
    var next, installed := Numbers(number, n.core[k + 1..]), Numbers(number, i.core[k + 1..]);
    if next != installed then GreaterCore(next, installed) else NewerTail(number, n.prerelease, i.prerelease)
  }

  lemma CanonicalValue(x: string, y: string)
    requires IsCanonicalNumber(x) && IsCanonicalNumber(y)
    ensures IsNumeric(x) && IsNumeric(y) && Exact(x) == Decimal(x) && (Exact(x) == Exact(y) <==> x == y)
  {
    assert IsDigit('0');
    if Exact(x) == Exact(y) {
      DecimalInjective(x, y);
    }
  }

  lemma FindDifference(x: seq<string>, y: seq<string>) returns (k: nat)
    requires |x| == |y| && x != y
    ensures k < |x| && FirstDifference(x, y, k)
  {
    k := 0;
    while x[k] == y[k]
      invariant k < |x| && x[..k] == y[..k]
      decreases |x| - k
    {
      assert x[..k + 1] == x[..k] + [x[k]] && y[..k + 1] == y[..k] + [y[k]];
      assert x[..|x|] == x && y[..|y|] == y;
      k := k + 1;
    }
  }

  /** Equal cores are compared further, differing ones by their first difference. */
  lemma {:induction false} GreaterCoreSkips(next: seq<nat>, installed: seq<nat>, k: nat)
    requires |next| == |installed| && k <= |next| && next[..k] == installed[..k]
    ensures GreaterCore(next, installed) == GreaterCore(next[k..], installed[k..])
    ensures next == installed <==> next[k..] == installed[k..]
  {
    assert next == next[..k] + next[k..] && installed == installed[..k] + installed[k..];
    if k > 0 {
      assert next[0] == next[..k][0] && installed[0] == installed[..k][0];
      assert next[1..][..k - 1] == next[..k][1..] && installed[1..][..k - 1] == installed[..k][1..];
      GreaterCoreSkips(next[1..], installed[1..], k - 1);
      assert next[1..][k - 1..] == next[k..] && installed[1..][k - 1..] == installed[k..];
    }
  }

  lemma NumbersParts(number: NumberOf, digits: seq<string>, k: nat)
    requires k <= |digits|
    ensures Numbers(number, digits)[..k] == Numbers(number, digits[..k])
    ensures Numbers(number, digits)[k..] == Numbers(number, digits[k..])
  {
  }

  /** Where the first differing core numerals are kept apart they decide, for the code and for section 11. */
  lemma CoresApart(number: NumberOf, n: Spelling, i: Spelling, k: nat)
    requires KeepsOrder(number) && IsSpelling(n) && IsSpelling(i)
    requires k < 3 && FirstDifference(n.core, i.core, k)
    ensures SpelledBelow(i, n) <==> Exact(i.core[k]) < Exact(n.core[k])
    ensures number(n.core[k]) != number(i.core[k]) ==>
              (Newer(number, Read(number, n), Read(number, i)) <==> SpelledBelow(i, n))
    ensures number(n.core[k]) == number(i.core[k]) ==>
              (Newer(number, Read(number, n), Read(number, i)) <==> NewerBehind(number, n, i, k))
  {
    CanonicalValue(n.core[k], i.core[k]);
    ExactCores(n, i, k);
    var next, installed := Numbers(number, n.core), Numbers(number, i.core);
    assert next[..k] == installed[..k] by {
      NumbersParts(number, n.core, k);
      NumbersParts(number, i.core, k);
    }
    if next[k] != installed[k] {
      GreaterCoreFrom(next, installed, k);
    } else {
      assert next[..k + 1] == next[..k] + [next[k]] && installed[..k + 1] == installed[..k] + [installed[k]];
      GreaterCoreSkips(next, installed, k + 1);
      NumbersParts(number, n.core, k + 1);
      NumbersParts(number, i.core, k + 1);
    }
  }

  lemma ExactCores(n: Spelling, i: Spelling, k: nat)
    requires |n.core| == |i.core| == 3 && k < 3 && FirstDifference(n.core, i.core, k)
    requires Exact(n.core[k]) != Exact(i.core[k])
    ensures SpelledBelow(i, n) <==> Exact(i.core[k]) < Exact(n.core[k])
  {
    var next, installed := Numbers(Exact, n.core), Numbers(Exact, i.core);
    NumbersParts(Exact, n.core, k);
    NumbersParts(Exact, i.core, k);
    assert installed[..k] == next[..k] && installed[k] != next[k];
    CoresAgree(next, installed);
    GreaterCoreFrom(next, installed, k);
  }

  // ---------------------------------------------------------------- main results on versions

  /** The code misses a version that section 11 puts above exactly if the comparison ends at two numerals it takes
      for the same number, of the core or of the prerelease, and section 11 decides there or, for the prerelease,
      there or later. It takes one that is not above for newer exactly if core numerals are taken for the same
      number and the rest decides the other way. */
  lemma AgreesWithSemanticVersioning(number: NumberOf, n: Spelling, i: Spelling)
    requires KeepsOrder(number) && IsSpelling(n) && IsSpelling(i)
    ensures SpelledBelow(i, n) && !Newer(number, Read(number, n), Read(number, i))
       <==> || (n.core == i.core && exists k: nat :: HidingTie(number, n.prerelease, i.prerelease, k))
            || (exists k: nat :: CoreTiedAt(number, n, i, k) && Exact(i.core[k]) < Exact(n.core[k])
                                 && !NewerBehind(number, n, i, k))
    ensures Newer(number, Read(number, n), Read(number, i)) && !SpelledBelow(i, n)
       <==> exists k: nat :: CoreTiedAt(number, n, i, k) && Exact(n.core[k]) < Exact(i.core[k])
                             && NewerBehind(number, n, i, k)
  {
    if n.core == i.core {
      CoreEqual(number, n, i);
    } else {
      var k := FindDifference(n.core, i.core);
      CanonicalValue(n.core[k], i.core[k]);
      CoresApart(number, n, i, k);
      forall j: nat | CoreTiedAt(number, n, i, j) ensures j == k {
        OneFirstDifference(n.core, i.core, j, k);
      }
      if number(n.core[k]) == number(i.core[k]) {
        assert CoreTiedAt(number, n, i, k);
      }
    }
  }

  lemma OneFirstDifference(x: seq<string>, y: seq<string>, j: nat, k: nat)
    requires FirstDifference(x, y, j) && FirstDifference(x, y, k) && |x| == |y|
    ensures j == k
  {
    if j < k {
      SameBefore(x, y, k, j);
    } else if k < j {
      SameBefore(x, y, j, k);
    }
  }

  lemma SameBefore(x: seq<string>, y: seq<string>, k: nat, j: nat)
    requires j < k <= |x| == |y| && x[..k] == y[..k]
    ensures x[j] == y[j]
  {
    assert x[j] == x[..k][j] == y[..k][j] == y[j];
  }

  lemma CoreEqual(number: NumberOf, n: Spelling, i: Spelling)
    requires KeepsOrder(number) && |n.core| == |i.core| == 3 && n.core == i.core
    ensures Newer(number, Read(number, n), Read(number, i)) ==> SpelledBelow(i, n)
    ensures SpelledBelow(i, n) && !Newer(number, Read(number, n), Read(number, i))
       <==> exists k: nat :: HidingTie(number, n.prerelease, i.prerelease, k)
    ensures !exists k: nat :: CoreTiedAt(number, n, i, k)
  {
    PrereleasesAgreeUnlessTied(number, n.prerelease, i.prerelease);
    CoresAgree(Numbers(Exact, n.core), Numbers(Exact, i.core));
    if n.prerelease == [] || i.prerelease == [] {
      forall k: nat ensures !HidingTie(number, n.prerelease, i.prerelease, k) {
      }
    }
  }

  /** No numeral of the version is 2^53 or more, and none of its prerelease has a leading zero. */
  ghost predicate IsPlain(p: Spelling) {
    && (forall j :: 0 <= j < |p.core| ==> Exact(p.core[j]) < EXACT_LIMIT)
    && (forall j :: 0 <= j < |p.prerelease| && IsNumeric(p.prerelease[j]) ==>
          !HasLeadingZero(p.prerelease[j]) && Decimal(p.prerelease[j]) < EXACT_LIMIT)
  }

  /** On numerals below 2^53 without leading zeros the code and section 11 agree. */
  lemma PlainVersionsAgree(number: NumberOf, n: Spelling, i: Spelling)
    requires KeepsOrder(number) && ExactUpToLimit(number) && IsSpelling(n) && IsSpelling(i) && IsPlain(n) && IsPlain(i)
    ensures Newer(number, Read(number, n), Read(number, i)) <==> SpelledBelow(i, n)
  {
    AgreesWithSemanticVersioning(number, n, i);
    forall k: nat ensures !CoreTiedAt(number, n, i, k) {
      if k < 3 {
        CanonicalValue(n.core[k], i.core[k]);
      }
    }
    forall k: nat ensures !HidingTie(number, n.prerelease, i.prerelease, k) {
      if k < |n.prerelease| && k < |i.prerelease| {
        PlainNumeralsApart(number, n.prerelease[k], i.prerelease[k]);
      }
    }
  }

  lemma PlainNumeralsApart(number: NumberOf, x: string, y: string)
    requires ExactUpToLimit(number)
    requires IsNumeric(x) ==> !HasLeadingZero(x) && Decimal(x) < EXACT_LIMIT
    requires IsNumeric(y) ==> !HasLeadingZero(y) && Decimal(y) < EXACT_LIMIT
    ensures AreRoundedAlike(number, x, y) ==> x == y
  {
    if AreRoundedAlike(number, x, y) {
      DecimalInjective(x, y);
    }
  }

  /** Neither of two versions is newer exactly if the code reads off equal cores and the prereleases are equal or
      tied. */
  lemma NeitherNewerExactlyIfTied(number: NumberOf, a: Version, b: Version)
    requires |a.core| == |b.core| == 3
    ensures !Newer(number, a, b) && !Newer(number, b, a)
       <==> a.core == b.core
            && (a.prerelease == b.prerelease || exists k: nat :: TiedAt(number, a.prerelease, b.prerelease, k))
  {
    CoreOrder(a.core, b.core, a.core);
    PrereleaseTies(number, a.prerelease, b.prerelease);
    if a.prerelease == [] || b.prerelease == [] {
      forall k: nat ensures !TiedAt(number, a.prerelease, b.prerelease, k) {
      }
    }
  }

  lemma {:induction false} PrereleaseTies(number: NumberOf, a: seq<string>, b: seq<string>)
    ensures !NewerPrerelease(number, a, b) && !NewerPrerelease(number, b, a)
       <==> a == b || exists k: nat :: TiedAt(number, a, b, k)
  {
    if a == [] || b == [] {
    } else if a[0] == b[0] {
      PrereleaseTies(number, a[1..], b[1..]);
      assert a == [a[0]] + a[1..] && b == [b[0]] + b[1..];
      if k: nat :| TiedAt(number, a, b, k) {
        assert k > 0;
        assert a[1..][..k - 1] == a[..k][1..] && b[1..][..k - 1] == b[..k][1..];
        assert TiedAt(number, a[1..], b[1..], k - 1);
      }
      if k: nat :| TiedAt(number, a[1..], b[1..], k) {
        assert a[..k + 1] == [a[0]] + a[1..][..k] && b[..k + 1] == [b[0]] + b[1..][..k];
        assert TiedAt(number, a, b, k + 1);
      }
    } else {
      StringOrder(a[0], b[0], a[0]);
      assert FirstDifference(a, b, 0);
      if AreRoundedAlike(number, a[0], b[0]) {
        assert TiedAt(number, a, b, 0);
      }
      forall k: nat | TiedAt(number, a, b, k) ensures k == 0 {
        if k > 0 { TieKeepsHead(b, a, k); }
      }
    }
  }

  /** Two plain versions neither of which is newer differ in build metadata only. */
  lemma NewerIsTotal(number: NumberOf, a: Spelling, b: Spelling)
    requires ExactUpToLimit(number) && IsSpelling(a) && IsSpelling(b) && IsPlain(a) && IsPlain(b)
    ensures || Newer(number, Read(number, a), Read(number, b)) || Newer(number, Read(number, b), Read(number, a))
            || (a.core == b.core && a.prerelease == b.prerelease)
  {
    NeitherNewerExactlyIfTied(number, Read(number, a), Read(number, b));
    forall k: nat ensures !TiedAt(number, a.prerelease, b.prerelease, k) {
      if k < |a.prerelease| && k < |b.prerelease| {
        PlainNumeralsApart(number, a.prerelease[k], b.prerelease[k]);
      }
    }
    if Numbers(number, a.core) == Numbers(number, b.core) {
      forall k | 0 <= k < 3 ensures a.core[k] == b.core[k] {
        CanonicalValue(a.core[k], b.core[k]);
        assert Numbers(number, a.core)[k] == Numbers(number, b.core)[k];
      }
    }
  }

  /** On texts that spell versions the method answers for what they spell. */
  lemma TextsAreSpellings(number: NumberOf, candidate: string, current: string, n: Spelling, i: Spelling)
    requires IsSpelling(n) && IsSpelling(i) && Trim(candidate) == Render(n) && Trim(current) == Render(i)
    ensures NewerText(number, candidate, current) <==> Newer(number, Read(number, n), Read(number, i))
  {
    ParsesExactlySpellings(number, candidate, Read(number, n));
    ParsesExactlySpellings(number, current, Read(number, i));
  }

  // ---------------------------------------------------------------- versions the code misjudges

  function Plain(core: seq<string>, prerelease: seq<string>): Spelling {
    Spelling(false, core, prerelease, "")
  }

  /** With a leading zero the code takes neither of two versions for newer although one is above. */
  lemma LeadingZeroHidesUpgrade(number: NumberOf)
    requires number("1") == 1 && number("01") == 1
    ensures var next, installed := Version([1, 0, 0], ["1", "b"]), Version([1, 0, 0], ["01", "a"]);
            !Newer(number, next, installed) && !Newer(number, installed, next) && Below(installed, next)
  {
    var x, y := ["01", "a"], ["1", "b"];
    assert Decimal("0") == 0 && "01"[..1] == "0";
    assert Decimal("01") == 1 && Decimal("1") == 1;
    assert SamePrecedence(x[0], y[0]);
    assert FirstDifference("a", "b", 0);
    assert IdentifierBelow(x[1], y[1]);
    assert DecidedAt(x, y, 1);
  }

  lemma DecimalSnoc(digits: string, d: char)
    requires (forall j :: 0 <= j < |digits| ==> IsDigit(digits[j])) && IsDigit(d)
    ensures Decimal(digits + [d]) == 10 * Decimal(digits) + (d as int - '0' as int)
  {
    assert (digits + [d])[..|digits|] == digits;
  }

  /** Two numerals that differ in their last digit only, the way 9007199254740992 and 9007199254740993 do. */
  lemma LastDigitDecides(digits: string, c: char, d: char)
    requires IsNumeric(digits) && digits[0] != '0' && IsDigit(c) && IsDigit(d) && c < d
    ensures IsNumeric(digits + [c]) && IsNumeric(digits + [d])
    ensures Exact(digits + [c]) == Decimal(digits + [c]) < Decimal(digits + [d]) == Exact(digits + [d])
    ensures !HasLeadingZero(digits + [c]) && !HasLeadingZero(digits + [d])
  {
    DecimalSnoc(digits, c);
    DecimalSnoc(digits, d);
  }

  /** Long numerals hide an upgrade in the prerelease. */
  lemma LongNumeralHidesUpgrade(number: NumberOf)
    requires number("9007199254740993") == number("9007199254740992")
    ensures var next, installed := Version([1, 0, 0], ["9007199254740993"]), Version([1, 0, 0], ["9007199254740992"]);
            !Newer(number, next, installed) && !Newer(number, installed, next) && Below(installed, next)
    ensures !HasLeadingZero("9007199254740993") && !HasLeadingZero("9007199254740992")
  {
    assert "900719925474099" + "2" == "9007199254740992" && "900719925474099" + "3" == "9007199254740993";
    LastDigitDecides("900719925474099", '2', '3');
    assert DecidedAt(["9007199254740992"], ["9007199254740993"], 0);
  }

  /** Long numerals in the core make the code offer a downgrade. */
  lemma LongNumeralOffersDowngrade(number: NumberOf)
    requires number("9007199254740993") == number("9007199254740992") && number("1") > number("0")
    ensures var next, installed := Plain(["1", "9007199254740992", "1"], []), Plain(["1", "9007199254740993", "0"], []);
            Newer(number, Read(number, next), Read(number, installed)) && SpelledBelow(next, installed)
  {
    var next, installed := Plain(["1", "9007199254740992", "1"], []), Plain(["1", "9007199254740993", "0"], []);
    assert "900719925474099" + "2" == "9007199254740992" && "900719925474099" + "3" == "9007199254740993";
    LastDigitDecides("900719925474099", '2', '3');
    var x, y := Numbers(Exact, next.core), Numbers(Exact, installed.core);
    assert x[..1] == y[..1] && x[1] < y[1];
    var a, b := Numbers(number, next.core), Numbers(number, installed.core);
    assert a[..2] == b[..2] && a[2] > b[2];
    GreaterCoreFrom(a, b, 2);
  }

  // ---------------------------------------------------------------- the parser

  function Span(s: string, ok: char -> bool): (n: nat)
    ensures n <= |s|
  {
    if s != "" && ok(s[0]) then 1 + Span(s[1..], ok) else 0
  }

  predicate IsCanonicalNumber(digits: string) {
    digits == "0" || (IsNumeric(digits) && digits[0] != '0')
  }

  predicate AllCanonical(core: seq<string>) {
    forall i :: 0 <= i < |core| ==> IsCanonicalNumber(core[i])
  }

  predicate IsTag(s: string) {
    s != "" && forall i :: 0 <= i < |s| ==> IsTagChar(s[i])
  }

  predicate IsBuildSuffix(s: string) {
    s == "" || (s[0] == '+' && IsTag(s[1..]))
  }

  /** A match at the start of a text, and what follows it. */
  datatype Match<T> = NoMatch | Match(found: T, rest: string)

  /** `(0|[1-9]\d*)`. */
  function TakeNumber(s: string): Match<string> {
    var n := Span(s, IsDigit);
    if IsCanonicalNumber(s[..n]) then Match(s[..n], s[n..]) else NoMatch
  }

  /** `[0-9A-Za-z.-]+`. */
  function TakeTag(s: string): Match<string> {
    var n := Span(s, IsTagChar);
    if n > 0 then Match(s[..n], s[n..]) else NoMatch
  }

  /** The optional prerelease and build parts that end the text. */
  function ParseTail(s: string): Option<seq<string>> {
    if s != "" && s[0] == '-' then
      var tag := TakeTag(s[1..]);
      if tag.Match? && IsBuildSuffix(tag.rest) then Some(Split(tag.found, '.')) else None
    else if IsBuildSuffix(s) then Some([])
    else None
  }

  /** `count` numbers with dots between them. */
  function ParseCore(s: string, count: nat): (core: Match<seq<string>>)
    requires count > 0
    ensures core.Match? ==> |core.found| == count
  {
    var number := TakeNumber(s);
    if number.NoMatch? then NoMatch
    else if count == 1 then Match([number.found], number.rest)
    else if number.rest == "" || number.rest[0] != '.' then NoMatch
    else
      var more := ParseCore(number.rest[1..], count - 1);
      if more.Match? then Match([number.found] + more.found, more.rest) else NoMatch
  }

  function WithoutPrefix(s: string): string {
    if s != "" && s[0] == 'v' then s[1..] else s
  }

  function Numbers(number: NumberOf, digits: seq<string>): (values: seq<nat>)
    ensures |values| == |digits|
  {
    seq(|digits|, i requires 0 <= i < |digits| => number(digits[i]))
  }

  function ParseSemver(number: NumberOf, text: string): (version: Option<Version>)
    ensures version.Some? ==> |version.value.core| == 3
  {
    var core := ParseCore(WithoutPrefix(Trim(text)), 3);
    if core.NoMatch? then None else
    match ParseTail(core.rest)
    case None => None
    case Some(prerelease) => Some(Version(Numbers(number, core.found), prerelease))
  }

  /** A version as section 9 and 10 spell it, with the `v` the parser also accepts. */
  datatype Spelling = Spelling(prefixed: bool, core: seq<string>, prerelease: seq<string>, build: string)

  predicate IsSpelling(p: Spelling) {
    && |p.core| == 3 && AllCanonical(p.core)
    && IsTail(p.prerelease, p.build)
  }

  predicate IsTail(prerelease: seq<string>, build: string) {
    && (prerelease != [] ==> IsTag(Join(prerelease, '.')) && forall id :: id in prerelease ==> '.' !in id)
    && (build != "" ==> IsTag(build))
  }

  function Render(p: Spelling): string {
    (if p.prefixed then "v" else "") + (Join(p.core, '.') + RenderTail(p.prerelease, p.build))
  }

  function RenderTail(prerelease: seq<string>, build: string): string {
    (if prerelease != [] then "-" + Join(prerelease, '.') else "") + (if build != "" then "+" + build else "")
  }

  lemma {:induction false} SpanOf(a: string, b: string, ok: char -> bool)
    requires (forall i :: 0 <= i < |a| ==> ok(a[i])) && (b == "" || !ok(b[0]))
    ensures Span(a + b, ok) == |a|
  {
    if a == "" {
      assert a + b == b;
    } else {
      assert (a + b)[1..] == a[1..] + b;
      SpanOf(a[1..], b, ok);
    }
  }

  lemma {:induction false} SpanIs(s: string, ok: char -> bool)
    ensures forall i :: 0 <= i < Span(s, ok) ==> ok(s[i])
    ensures Span(s, ok) < |s| ==> !ok(s[Span(s, ok)])
  {
    if s != "" && ok(s[0]) {
      SpanIs(s[1..], ok);
      assert s[..Span(s, ok)] == [s[0]] + s[1..][..Span(s[1..], ok)];
    }
  }

  lemma NumberRendered(digits: string, tail: string)
    requires IsCanonicalNumber(digits) && (tail == "" || !IsDigit(tail[0]))
    ensures TakeNumber(digits + tail) == Match(digits, tail)
  {
    assert IsDigit('0') && IsNumeric(digits);
    SpanOf(digits, tail, IsDigit);
    assert (digits + tail)[..|digits|] == digits && (digits + tail)[|digits|..] == tail;
  }

  lemma ParseCoreCons(digits: string, s: string, core: seq<string>, tail: string)
    requires IsCanonicalNumber(digits) && core != [] && ParseCore(s, |core|) == Match(core, tail)
    ensures ParseCore(digits + "." + s, 1 + |core|) == Match([digits] + core, tail)
  {
    var text := digits + "." + s;
    NumberRendered(digits, "." + s);
    assert text == digits + ("." + s);
    assert ("." + s)[1..] == s;
  }

  lemma RenderedCons(core: seq<string>, tail: string)
    requires |core| > 1 && IsCanonicalNumber(core[0])
    requires ParseCore(Join(core[1..], '.') + tail, |core[1..]|) == Match(core[1..], tail)
    ensures ParseCore(Join(core, '.') + tail, |core|) == Match(core, tail)
  {
    var rest := core[1..];
    assert core == [core[0]] + rest && |core| == 1 + |rest|;
    RenderedText(core[0], rest, tail);
    ParseCoreCons(core[0], Join(rest, '.') + tail, rest, tail);
  }

  lemma RenderedText(digits: string, rest: seq<string>, tail: string)
    requires rest != []
    ensures Join([digits] + rest, '.') + tail == digits + "." + (Join(rest, '.') + tail)
  {
    JoinCons(digits, rest, '.');
  }

  lemma {:induction false} CoreRendered(core: seq<string>, tail: string)
    requires core != [] && AllCanonical(core)
    requires tail == "" || (!IsDigit(tail[0]) && tail[0] != '.')
    ensures ParseCore(Join(core, '.') + tail, |core|) == Match(core, tail)
  {
    if |core| == 1 {
      OneRendered(core[0], tail);
      assert core == [core[0]];
    } else {
      CoreRendered(core[1..], tail);
      RenderedCons(core, tail);
    }
  }

  lemma OneRendered(digits: string, tail: string)
    requires IsCanonicalNumber(digits) && (tail == "" || !IsDigit(tail[0]))
    ensures ParseCore(Join([digits], '.') + tail, 1) == Match([digits], tail)
  {
    NumberRendered(digits, tail);
    assert Join([digits], '.') == digits;
  }

  lemma TailRendered(prerelease: seq<string>, build: string)
    requires IsTail(prerelease, build)
    ensures ParseTail(RenderTail(prerelease, build)) == Some(prerelease)
  {
    var suffix := RenderTail([], build);
    if build != "" {
      assert suffix[1..] == build;
    }
    if prerelease == [] {
      assert RenderTail(prerelease, build) == suffix;
    } else {
      var tag := Join(prerelease, '.');
      assert RenderTail(prerelease, build) == "-" + (tag + suffix);
      assert ("-" + (tag + suffix))[1..] == tag + suffix;
      SpanOf(tag, suffix, IsTagChar);
      assert (tag + suffix)[..|tag|] == tag && (tag + suffix)[|tag|..] == suffix;
      SplitJoin(prerelease, '.');
    }
  }

  lemma {:induction false} CoreParsed(s: string, count: nat)
    requires count > 0
    requires ParseCore(s, count).Match?
    ensures s == Join(ParseCore(s, count).found, '.') + ParseCore(s, count).rest
    ensures AllCanonical(ParseCore(s, count).found)
  {
    var number := TakeNumber(s);
    assert s == number.found + number.rest;
    if count > 1 {
      var more := ParseCore(number.rest[1..], count - 1);
      CoreParsed(number.rest[1..], count - 1);
      JoinCons(number.found, more.found, '.');
      assert number.rest == "." + number.rest[1..];
      assert s == (number.found + "." + Join(more.found, '.')) + more.rest;
    }
  }

  lemma BuildParsed(s: string)
    requires IsBuildSuffix(s)
    ensures IsTail([], if s == "" then "" else s[1..]) && RenderTail([], if s == "" then "" else s[1..]) == s
  {
    if s != "" {
      assert s == "+" + s[1..];
    }
  }

  lemma TagParsed(s: string)
    requires TakeTag(s).Match?
    ensures var tag := TakeTag(s); IsTag(tag.found) && s == tag.found + tag.rest
  {
    SpanIs(s, IsTagChar);
  }

  lemma TailOf(tag: string, rest: string)
    requires IsTag(tag) && IsBuildSuffix(rest)
    ensures var build := if rest == "" then "" else rest[1..];
            IsTail(Split(tag, '.'), build) && RenderTail(Split(tag, '.'), build) == "-" + tag + rest
  {
    JoinSplit(tag, '.');
    BuildParsed(rest);
  }

  lemma TailParsed(s: string) returns (prerelease: seq<string>, build: string)
    requires ParseTail(s).Some?
    ensures prerelease == ParseTail(s).value
    ensures IsTail(prerelease, build) && RenderTail(prerelease, build) == s
  {
    prerelease := ParseTail(s).value;
    if s != "" && s[0] == '-' {
      var tag := TakeTag(s[1..]);
      TagParsed(s[1..]);
      TailOf(tag.found, tag.rest);
      build := if tag.rest == "" then "" else tag.rest[1..];
      assert s == "-" + s[1..];
      assert "-" + tag.found + tag.rest == "-" + (tag.found + tag.rest);
    } else {
      BuildParsed(s);
      build := if s == "" then "" else s[1..];
    }
  }

  /** The parser accepts exactly the spellings of a version, and reads off the numbers and the
      prerelease identifiers; build metadata and the prefix leave no trace. */
  lemma ParsesExactlySpellings(number: NumberOf, text: string, version: Version)
    ensures ParseSemver(number, text) == Some(version)
            <==> exists p :: IsSpelling(p) && Trim(text) == Render(p)
                             && version == Version(Numbers(number, p.core), p.prerelease)
  {
    if ParseSemver(number, text) == Some(version) {
      var core := ParseCore(WithoutPrefix(Trim(text)), 3);
      CoreParsed(WithoutPrefix(Trim(text)), 3);
      var p := SpellingOf(Trim(text), core.found, core.rest);
    }
    if p :| IsSpelling(p) && Trim(text) == Render(p)
            && version == Version(Numbers(number, p.core), p.prerelease) {
      RenderedWithoutPrefix(p);
      CoreRendered(p.core, RenderTail(p.prerelease, p.build));
      TailRendered(p.prerelease, p.build);
    }
  }

  lemma SpellingOf(s: string, core: seq<string>, rest: string) returns (p: Spelling)
    requires WithoutPrefix(s) == Join(core, '.') + rest && |core| == 3 && AllCanonical(core) && ParseTail(rest).Some?
    ensures IsSpelling(p) && s == Render(p) && p.core == core && Some(p.prerelease) == ParseTail(rest)
  {
    var prerelease, build := TailParsed(rest);
    p := Spelling(s != "" && s[0] == 'v', core, prerelease, build);
    PrefixSplit(s);
    assert Render(p) == (if p.prefixed then "v" else "") + (Join(core, '.') + rest);
  }

  lemma PrefixSplit(s: string)
    ensures s == (if s != "" && s[0] == 'v' then "v" else "") + WithoutPrefix(s)
  {
  }

  lemma CoreStarts(core: seq<string>, tail: string)
    requires core != [] && AllCanonical(core)
    ensures var s := Join(core, '.') + tail; s != "" && IsDigit(s[0])
  {
    assert IsDigit('0') && IsNumeric(core[0]);
    if |core| > 1 {
      JoinCons(core[0], core[1..], '.');
      assert core == [core[0]] + core[1..];
    }
  }

  lemma RenderedWithoutPrefix(p: Spelling)
    requires IsSpelling(p)
    ensures WithoutPrefix(Render(p)) == Join(p.core, '.') + RenderTail(p.prerelease, p.build)
  {
    var tail := RenderTail(p.prerelease, p.build);
    CoreStarts(p.core, tail);
    PrefixDropped(p.prefixed, Join(p.core, '.') + tail);
  }

  lemma PrefixDropped(prefixed: bool, s: string)
    requires s != "" && s[0] != 'v'
    ensures WithoutPrefix((if prefixed then "v" else "") + s) == s
  {
    assert "" + s == s && ("v" + s)[1..] == s;
  }
}
