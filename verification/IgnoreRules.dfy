/** The ignore rules: the wildcard matcher with its single point to fall back to, against a recursive
    definition of matching; component-wise path matching; and the rule list. */
module Ignoring {
  import opened Common

  const STAR: Byte := 42
  const QUESTION: Byte := 63
  const SLASH: Byte := 47
  const BACKSLASH: Byte := 92
  const HASH: Byte := 35
  const RETURN: Byte := 13

  datatype CaseSensitivity = Sensitive | InsensitiveAscii

  function Fold(b: Byte): Byte {
    if 65 <= b <= 90 then b + 32 else b
  }

  predicate EqualLiteral(left: Byte, right: Byte, cs: CaseSensitivity) {
    if left == right || cs == Sensitive then left == right else Fold(left) == Fold(right)
  }

  /** The length of the character that a byte begins; one for anything that begins none. */
  function CharacterLength(first: Byte): (n: nat)
    ensures 1 <= n <= 4
  {
    if first / 32 == 6 then 2 else if first / 16 == 14 then 3 else if first / 8 == 30 then 4 else 1
  }

  function NextCharacter(text: Bytes, offset: nat): (next: nat)
    requires offset <= |text|
    ensures offset <= next <= |text| && (offset < |text| ==> offset < next)
  {
    if offset >= |text| then offset
    else
      var length := CharacterLength(text[offset]);
      offset + if length < |text| - offset then length else |text| - offset
  }

  /** The two cases of one ASCII letter. */
  predicate TwoCases(a: Byte, b: Byte) {
    (65 <= a <= 90 && b as int == a as int + 32) || (97 <= a <= 122 && b as int == a as int - 32)
  }

  /** Literals are equal if they are the same byte or, where case is ignored, the two cases of a letter. */
  lemma EqualLiteralMeaning(a: Byte, b: Byte)
    ensures EqualLiteral(a, b, Sensitive) <==> a == b
    ensures EqualLiteral(a, b, InsensitiveAscii) <==> a == b || TwoCases(a, b)
  {
  }

  // ----- what matching means -------------------------------------------------------------------

  /** The pattern from `i` on matches the name from `j` on: `*` stands for any run of characters, `?` for
      one character, and everything else for itself, byte by byte. */
  predicate Matches(p: Bytes, i: nat, n: Bytes, j: nat, cs: CaseSensitivity)
    requires i <= |p| && j <= |n|
    decreases |p| - i, |n| - j
  {
    if i == |p| then j == |n|
    else if p[i] == STAR then Matches(p, i + 1, n, j, cs) || (j < |n| && Matches(p, i, n, NextCharacter(n, j), cs))
    else if p[i] == QUESTION then j < |n| && Matches(p, i + 1, n, NextCharacter(n, j), cs)
    else j < |n| && EqualLiteral(p[i], n[j], cs) && Matches(p, i + 1, n, j + 1, cs)
  }

  predicate Match(p: Bytes, n: Bytes, cs: CaseSensitivity) {
    Matches(p, 0, n, 0, cs)
  }

  predicate Wild(b: Byte) {
    b == STAR || b == QUESTION
  }

  /** From `i` on the pattern is a sequence of whole characters, and no wildcard is hidden inside one. */
  predicate WholeFrom(p: Bytes, i: nat)
    requires i <= |p|
    decreases |p| - i
  {
    i == |p| ||
    (var next := i + CharacterLength(p[i]);
     next <= |p| && (forall x :: i < x < next ==> !Wild(p[x])) && WholeFrom(p, next))
  }

  /** Every well-formed UTF-8 string is of this kind. */
  predicate Whole(p: Bytes) {
    WholeFrom(p, 0)
  }

  // ----- matching without stars ----------------------------------------------------------------

  /** Where the star-free stretch of the pattern from `i` to `k` ends in the name when it begins at `j`. */
  function Walk(p: Bytes, i: nat, k: nat, n: Bytes, j: nat, cs: CaseSensitivity): (end: Option<nat>)
    requires i <= k <= |p| && j <= |n|
    ensures end.Some? ==> j <= end.value <= |n|
    decreases k - i
  {
    if i == k then Some(j)
    else if p[i] == STAR || j == |n| then None
    else if p[i] == QUESTION then Walk(p, i + 1, k, n, NextCharacter(n, j), cs)
    else if EqualLiteral(p[i], n[j], cs) then Walk(p, i + 1, k, n, j + 1, cs)
    else None
  }

  predicate StarFree(p: Bytes, i: nat, k: nat)
    requires i <= k <= |p|
  {
    forall x :: i <= x < k ==> p[x] != STAR
  }

  /** A star-free stretch leaves no choice. */
  lemma {:induction false} WalkDecides(p: Bytes, i: nat, k: nat, n: Bytes, j: nat, cs: CaseSensitivity)
    requires i <= k <= |p| && j <= |n| && StarFree(p, i, k)
    ensures var end := Walk(p, i, k, n, j, cs);
            Matches(p, i, n, j, cs) <==> end.Some? && Matches(p, k, n, end.value, cs)
    decreases k - i
  {
    if i < k && j < |n| {
      if p[i] == QUESTION {
        WalkDecides(p, i + 1, k, n, NextCharacter(n, j), cs);
      } else if EqualLiteral(p[i], n[j], cs) {
        WalkDecides(p, i + 1, k, n, j + 1, cs);
      }
    }
  }

  lemma {:induction false} WalkFurther(p: Bytes, i: nat, k: nat, n: Bytes, j: nat, cs: CaseSensitivity)
    requires i <= k < |p| && j <= |n| && StarFree(p, i, k + 1) && Walk(p, i, k, n, j, cs).Some?
    ensures var end := Walk(p, i, k, n, j, cs).value;
            Walk(p, i, k + 1, n, j, cs) == Walk(p, k, k + 1, n, end, cs)
    decreases k - i
  {
    if i < k {
      WalkFurther(p, i + 1, k, n, if p[i] == QUESTION then NextCharacter(n, j) else j + 1, cs);
    }
  }

  /** Steps of one character lead from `a` to `b`. */
  predicate Reaches(n: Bytes, a: nat, b: nat)
    requires a <= |n| && b <= |n|
    decreases |n| - a
  {
    a == b || (a < |n| && Reaches(n, NextCharacter(n, a), b))
  }

  lemma {:induction false} ReachesForward(n: Bytes, a: nat, b: nat)
    requires a <= |n| && b <= |n| && Reaches(n, a, b)
    ensures a <= b
    ensures a < b ==> NextCharacter(n, a) <= b
    ensures b < |n| ==> Reaches(n, NextCharacter(n, a), NextCharacter(n, b))
    decreases |n| - a
  {
    if a != b {
      ReachesForward(n, NextCharacter(n, a), b);
    }
  }

  /** A star from `a` on takes in what a star from a later character on does. */
  lemma {:induction false} StarTakesIn(p: Bytes, i: nat, n: Bytes, a: nat, b: nat, cs: CaseSensitivity)
    requires i < |p| && p[i] == STAR && a <= |n| && b <= |n| && Reaches(n, a, b) && Matches(p, i, n, b, cs)
    ensures Matches(p, i, n, a, cs)
    decreases |n| - a
  {
    if a != b {
      StarTakesIn(p, i, n, NextCharacter(n, a), b, cs);
    }
  }

  /** A star that matches does so from some later character on. */
  lemma {:induction false} StarLandsSomewhere(p: Bytes, i: nat, n: Bytes, a: nat, cs: CaseSensitivity) returns (b: nat)
    requires i < |p| && p[i] == STAR && a <= |n| && Matches(p, i, n, a, cs)
    ensures b <= |n| && Reaches(n, a, b) && Matches(p, i + 1, n, b, cs)
    decreases |n| - a
  {
    b := a;
    if !Matches(p, i + 1, n, a, cs) {
      b := StarLandsSomewhere(p, i, n, NextCharacter(n, a), cs);
    }
  }

  // ----- whole characters ----------------------------------------------------------------------

  lemma LengthOfLiteral(a: Byte, b: Byte, cs: CaseSensitivity)
    requires EqualLiteral(a, b, cs)
    ensures CharacterLength(a) == CharacterLength(b)
  {
  }

  /** The bytes of a literal are compared one by one. */
  lemma {:induction false} WalkLiteral(p: Bytes, i: nat, k: nat, n: Bytes, j: nat, cs: CaseSensitivity)
    requires i <= k <= |p| && j <= |n| && (forall x :: i <= x < k ==> !Wild(p[x])) && Walk(p, i, k, n, j, cs).Some?
    ensures Walk(p, i, k, n, j, cs) == Some(j + (k - i))
    ensures i < k ==> j < |n| && EqualLiteral(p[i], n[j], cs)
    decreases k - i
  {
    if i < k {
      WalkLiteral(p, i + 1, k, n, j + 1, cs);
    }
  }

  lemma {:induction false} WalkParts(p: Bytes, i: nat, m: nat, k: nat, n: Bytes, j: nat, cs: CaseSensitivity)
    requires i <= m <= k <= |p| && j <= |n| && Walk(p, i, k, n, j, cs).Some?
    ensures Walk(p, i, m, n, j, cs).Some?
    ensures Walk(p, i, k, n, j, cs) == Walk(p, m, k, n, Walk(p, i, m, n, j, cs).value, cs)
    decreases m - i
  {
    if i < m {
      WalkParts(p, i + 1, m, k, n, if p[i] == QUESTION then NextCharacter(n, j) else j + 1, cs);
    }
  }

  /** One whole character of the pattern, wildcard or not, consumes one whole character of the name. */
  lemma WalkCharacter(p: Bytes, i: nat, n: Bytes, j: nat, cs: CaseSensitivity)
    requires i < |p| && j <= |n| && p[i] != STAR && WholeFrom(p, i)
    requires var m := i + CharacterLength(p[i]); m <= |p| && Walk(p, i, m, n, j, cs).Some?
    ensures j < |n| && Walk(p, i, i + CharacterLength(p[i]), n, j, cs) == Some(NextCharacter(n, j))
  {
    var m := i + CharacterLength(p[i]);
    if p[i] != QUESTION {
      WalkLiteral(p, i, m, n, j, cs);
      LengthOfLiteral(p[i], n[j], cs);
    }
  }

  /** One whole character of the stretch is taken off both walks. */
  lemma WalkPastCharacter(p: Bytes, i: nat, k: nat, n: Bytes, j: nat, cs: CaseSensitivity)
    requires i < k <= |p| && j <= |n| && WholeFrom(p, i) && Walk(p, i, k, n, j, cs).Some? && i + CharacterLength(p[i]) <= k
    ensures j < |n| && Walk(p, i, k, n, j, cs) == Walk(p, i + CharacterLength(p[i]), k, n, NextCharacter(n, j), cs)
  {
    var m := i + CharacterLength(p[i]);
    WalkParts(p, i, m, k, n, j, cs);
    WalkCharacter(p, i, n, j, cs);
  }

  /** A stretch that ends inside a character is a literal. */
  lemma WalksInsideCharacter(p: Bytes, i: nat, k: nat, n: Bytes, a: nat, b: nat, cs: CaseSensitivity)
    requires i < k < |p| && a <= b <= |n| && WholeFrom(p, i) && k < i + CharacterLength(p[i])
    requires Walk(p, i, k, n, a, cs).Some? && Walk(p, i, k, n, b, cs).Some?
    ensures Walk(p, i, k, n, a, cs).value <= Walk(p, i, k, n, b, cs).value && p[k] != STAR
  {
    assert !Wild(p[i]);
    WalkLiteral(p, i, k, n, a, cs);
    WalkLiteral(p, i, k, n, b, cs);
  }

  /** Walking the same stretch from a later character never ends earlier. */
  lemma {:induction false} WalksKeepOrder(p: Bytes, i: nat, k: nat, n: Bytes, a: nat, b: nat, cs: CaseSensitivity)
    requires i <= k <= |p| && a <= |n| && b <= |n| && WholeFrom(p, i) && Reaches(n, a, b)
    requires Walk(p, i, k, n, a, cs).Some? && Walk(p, i, k, n, b, cs).Some?
    ensures Walk(p, i, k, n, a, cs).value <= Walk(p, i, k, n, b, cs).value
    ensures k < |p| && p[k] == STAR ==> Reaches(n, Walk(p, i, k, n, a, cs).value, Walk(p, i, k, n, b, cs).value)
    decreases k - i
  {
    ReachesForward(n, a, b);
    if i < k {
      var m := i + CharacterLength(p[i]);
      if m <= k {
        WalkPastCharacter(p, i, k, n, a, cs);
        WalkPastCharacter(p, i, k, n, b, cs);
        WalksKeepOrder(p, m, k, n, NextCharacter(n, a), NextCharacter(n, b), cs);
      } else {
        WalksInsideCharacter(p, i, k, n, a, b, cs);
      }
    }
  }

  /** A star begins a character of the pattern. */
  lemma {:induction false} StarIsWhole(p: Bytes, i: nat, k: nat)
    requires i <= k < |p| && WholeFrom(p, i) && p[k] == STAR
    ensures WholeFrom(p, k) && WholeFrom(p, k + 1)
    decreases k - i
  {
    if i < k {
      StarIsWhole(p, i + CharacterLength(p[i]), k);
    }
  }

  // ----- the one point to fall back to ---------------------------------------------------------

  /** Behind the star at `sp - 1` the matcher has walked from `sn` to `no`, star-free. */
  predicate Behind(p: Bytes, sp: nat, po: nat, n: Bytes, sn: nat, no: nat, cs: CaseSensitivity) {
    && 0 < sp <= po <= |p| && sn <= no <= |n|
    && p[sp - 1] == STAR && StarFree(p, sp, po) && Walk(p, sp, po, n, sn, cs) == Some(no)
  }

  /** On a mismatch the star takes one more character, and nothing is missed. */
  lemma FallBack(p: Bytes, sp: nat, po: nat, n: Bytes, sn: nat, no: nat, cs: CaseSensitivity)
    requires Behind(p, sp, po, n, sn, no, cs) && no < |n| && !Matches(p, po, n, no, cs)
    ensures Matches(p, sp - 1, n, sn, cs) <==> Matches(p, sp - 1, n, NextCharacter(n, sn), cs)
  {
    WalkDecides(p, sp, po, n, sn, cs);
  }

  /** When a further star is reached, the earlier one need never be reconsidered. */
  lemma NewStar(p: Bytes, sp: nat, po: nat, n: Bytes, sn: nat, no: nat, cs: CaseSensitivity)
    requires Behind(p, sp, po, n, sn, no, cs) && po < |p| && p[po] == STAR
    ensures Matches(p, po, n, no, cs) ==> Matches(p, sp - 1, n, sn, cs)
    ensures WholeFrom(p, sp) ==> (Matches(p, po, n, no, cs) <==> Matches(p, sp - 1, n, sn, cs))
  {
    WalkDecides(p, sp, po, n, sn, cs);
    if WholeFrom(p, sp) && Matches(p, sp - 1, n, sn, cs) {
      var b := StarLandsSomewhere(p, sp - 1, n, sn, cs);
      WalkDecides(p, sp, po, n, b, cs);
      WalksKeepOrder(p, sp, po, n, sn, b, cs);
      StarTakesIn(p, po, n, no, Walk(p, sp, po, n, b, cs).value, cs);
    }
  }

  /** When the name is used up, no other way of matching the star could have used less of the pattern. */
  lemma NameUsedUp(p: Bytes, sp: nat, po: nat, n: Bytes, sn: nat, cs: CaseSensitivity)
    requires Behind(p, sp, po, n, sn, |n|, cs)
    ensures Matches(p, po, n, |n|, cs) ==> Matches(p, sp - 1, n, sn, cs)
    ensures WholeFrom(p, sp) ==> (Matches(p, po, n, |n|, cs) <==> Matches(p, sp - 1, n, sn, cs))
  {
    WalkDecides(p, sp, po, n, sn, cs);
    if WholeFrom(p, sp) && Matches(p, sp - 1, n, sn, cs) {
      var b := StarLandsSomewhere(p, sp - 1, n, sn, cs);
      WalkDecides(p, sp, po, n, b, cs);
      WalksKeepOrder(p, sp, po, n, sn, b, cs);
    }
  }

  lemma {:induction false} OnlyStarsMatchNothing(p: Bytes, i: nat, n: Bytes, cs: CaseSensitivity)
    requires i <= |p|
    ensures Matches(p, i, n, |n|, cs) <==> forall x :: i <= x < |p| ==> p[x] == STAR
    decreases |p| - i
  {
    if i < |p| {
      OnlyStarsMatchNothing(p, i + 1, n, cs);
    }
  }

  // ----- the loop as a function ----------------------------------------------------------------

  /** What the matcher answers from where it stands: at `po` in the pattern and `no` in the name, with the
      star last seen before `star`, which has taken in the name up to `sn`. */
  predicate Runs(p: Bytes, star: Option<nat>, po: nat, n: Bytes, sn: nat, no: nat, cs: CaseSensitivity)
    requires po <= |p| && sn <= no <= |n| && (star.Some? ==> star.value <= po)
    decreases |n| - sn, |p| - po
  {
    if no == |n| then forall x :: po <= x < |p| ==> p[x] == STAR
    else if po < |p| && p[po] == QUESTION then Runs(p, star, po + 1, n, sn, NextCharacter(n, no), cs)
    else if po < |p| && p[po] == STAR then Runs(p, Some(po + 1), po + 1, n, no, no, cs)
    else if po < |p| && EqualLiteral(p[po], n[no], cs) then Runs(p, star, po + 1, n, sn, no + 1, cs)
    else if star.Some? then Runs(p, star, star.value, n, NextCharacter(n, sn), NextCharacter(n, sn), cs)
    else false
  }

  predicate Run(p: Bytes, n: Bytes, cs: CaseSensitivity) {
    Runs(p, None, 0, n, 0, 0, cs)
  }

  /** A `true` after a star is a match from that star on. */
  lemma {:induction false} RunsSound(p: Bytes, sp: nat, po: nat, n: Bytes, sn: nat, no: nat, cs: CaseSensitivity)
    requires Behind(p, sp, po, n, sn, no, cs) && Runs(p, Some(sp), po, n, sn, no, cs)
    ensures Matches(p, sp - 1, n, sn, cs)
    decreases |n| - sn, |p| - po
  {
    WalkDecides(p, sp, po, n, sn, cs);
    if no == |n| {
      OnlyStarsMatchNothing(p, po, n, cs);
    } else if po < |p| && p[po] == QUESTION {
      WalkFurther(p, sp, po, n, sn, cs);
      RunsSound(p, sp, po + 1, n, sn, NextCharacter(n, no), cs);
    } else if po < |p| && p[po] == STAR {
      RunsSound(p, po + 1, po + 1, n, no, no, cs);
    } else if po < |p| && EqualLiteral(p[po], n[no], cs) {
      WalkFurther(p, sp, po, n, sn, cs);
      RunsSound(p, sp, po + 1, n, sn, no + 1, cs);
    } else {
      RunsSound(p, sp, sp, n, NextCharacter(n, sn), NextCharacter(n, sn), cs);
    }
  }

  /** In a pattern of whole characters, a match from a star on is found. */
  lemma {:induction false} RunsFind(p: Bytes, sp: nat, po: nat, n: Bytes, sn: nat, no: nat, cs: CaseSensitivity)
    requires Behind(p, sp, po, n, sn, no, cs) && WholeFrom(p, sp) && Matches(p, sp - 1, n, sn, cs)
    ensures Runs(p, Some(sp), po, n, sn, no, cs)
    decreases |n| - sn, |p| - po
  {
    if no == |n| {
      NameUsedUp(p, sp, po, n, sn, cs);
      OnlyStarsMatchNothing(p, po, n, cs);
    } else if po < |p| && p[po] == QUESTION {
      WalkFurther(p, sp, po, n, sn, cs);
      RunsFind(p, sp, po + 1, n, sn, NextCharacter(n, no), cs);
    } else if po < |p| && p[po] == STAR {
      NewStar(p, sp, po, n, sn, no, cs);
      StarIsWhole(p, sp, po);
      RunsFind(p, po + 1, po + 1, n, no, no, cs);
    } else if po < |p| && EqualLiteral(p[po], n[no], cs) {
      WalkFurther(p, sp, po, n, sn, cs);
      RunsFind(p, sp, po + 1, n, sn, no + 1, cs);
    } else {
      FallBack(p, sp, po, n, sn, no, cs);
      RunsFind(p, sp, sp, n, NextCharacter(n, sn), NextCharacter(n, sn), cs);
    }
  }

  /** The same before the first star, where nothing is ever reconsidered. */
  lemma {:induction false} RunsBegin(p: Bytes, po: nat, n: Bytes, no: nat, cs: CaseSensitivity)
    requires po <= |p| && no <= |n|
    ensures Runs(p, None, po, n, 0, no, cs) ==> Matches(p, po, n, no, cs)
    ensures Whole(p) && StarFree(p, 0, po) ==> (Runs(p, None, po, n, 0, no, cs) <==> Matches(p, po, n, no, cs))
    decreases |p| - po
  {
    if no == |n| {
      OnlyStarsMatchNothing(p, po, n, cs);
    } else if po < |p| && p[po] == QUESTION {
      RunsBegin(p, po + 1, n, NextCharacter(n, no), cs);
    } else if po < |p| && p[po] == STAR {
      if Runs(p, Some(po + 1), po + 1, n, no, no, cs) {
        RunsSound(p, po + 1, po + 1, n, no, no, cs);
      } else if Whole(p) && StarFree(p, 0, po) && Matches(p, po, n, no, cs) {
        StarIsWhole(p, 0, po);
        RunsFind(p, po + 1, po + 1, n, no, no, cs);
      }
    } else if po < |p| && EqualLiteral(p[po], n[no], cs) {
      RunsBegin(p, po + 1, n, no + 1, cs);
    }
  }

  /** Whatever the strings, the matcher never finds a match that is none; and for every pattern made of whole
      characters, and every name, its answer is exactly whether the pattern matches. */
  lemma RunMeaning(p: Bytes, n: Bytes, cs: CaseSensitivity)
    ensures Run(p, n, cs) ==> Match(p, n, cs)
    ensures Whole(p) ==> (Run(p, n, cs) <==> Match(p, n, cs))
  {
    RunsBegin(p, 0, n, 0, cs);
  }

  /** The loop of the matcher. */
  method MatchComponent(p: Bytes, n: Bytes, cs: CaseSensitivity) returns (r: bool)
    ensures r <==> Run(p, n, cs)
    ensures r ==> Match(p, n, cs)
    ensures Whole(p) ==> (r <==> Match(p, n, cs))
  {
    RunMeaning(p, n, cs);
    var po: nat, no: nat, sn: nat := 0, 0, 0;
    var star: Option<nat> := None;
    while no < |n|
      invariant po <= |p| && sn <= no <= |n| && (star.Some? ==> star.value <= po)
      invariant Runs(p, star, po, n, sn, no, cs) <==> Run(p, n, cs)
      decreases |n| - sn, |p| - po
    {
      if po < |p| && p[po] == QUESTION {
        po := po + 1;
        no := NextCharacter(n, no);
      } else if po < |p| && p[po] == STAR {
        po := po + 1;
        star, sn := Some(po), no;
      } else if po < |p| && EqualLiteral(p[po], n[no], cs) {
        po := po + 1;
        no := no + 1;
      } else if star.Some? {
        po := star.value;
        sn := NextCharacter(n, sn);
        no := sn;
      } else {
        return false;
      }
    }
    r := OnlyStars(p, po);
  }

  /** Whether nothing but stars is left of the pattern. */
  method OnlyStars(p: Bytes, from: nat) returns (r: bool)
    requires from <= |p|
    ensures r <==> forall x :: from <= x < |p| ==> p[x] == STAR
  {
    var po := from;
    while po < |p| && p[po] == STAR
      invariant from <= po <= |p| && forall x :: from <= x < po ==> p[x] == STAR
    {
      po := po + 1;
    }
    return po == |p|;
  }

  // ----- the case of letters -------------------------------------------------------------------

  /** The texts differ at most in the case of ASCII letters. */
  predicate SameButCase(a: Bytes, b: Bytes) {
    |a| == |b| && forall i :: 0 <= i < |a| ==> a[i] == b[i] || TwoCases(a[i], b[i])
  }

  lemma NextIsTheSame(n: Bytes, m: Bytes, offset: nat)
    requires SameButCase(n, m) && offset <= |n|
    ensures NextCharacter(n, offset) == NextCharacter(m, offset)
  {
  }

  lemma {:induction false} RunsTheSame(p: Bytes, q: Bytes, star: Option<nat>, po: nat, n: Bytes, m: Bytes, sn: nat, no: nat)
    requires SameButCase(p, q) && SameButCase(n, m)
    requires po <= |p| && sn <= no <= |n| && (star.Some? ==> star.value <= po)
    ensures Runs(p, star, po, n, sn, no, InsensitiveAscii) <==> Runs(q, star, po, m, sn, no, InsensitiveAscii)
    decreases |n| - sn, |p| - po
  {
    if no < |n| {
      NextIsTheSame(n, m, no);
      NextIsTheSame(n, m, sn);
      if po < |p| {
        EqualLiteralMeaning(p[po], n[no]);
        EqualLiteralMeaning(q[po], m[no]);
      }
      if po < |p| && p[po] == QUESTION {
        RunsTheSame(p, q, star, po + 1, n, m, sn, NextCharacter(n, no));
      } else if po < |p| && p[po] == STAR {
        RunsTheSame(p, q, Some(po + 1), po + 1, n, m, no, no);
      } else if po < |p| && EqualLiteral(p[po], n[no], InsensitiveAscii) {
        RunsTheSame(p, q, star, po + 1, n, m, sn, no + 1);
      } else if star.Some? {
        RunsTheSame(p, q, star, star.value, n, m, NextCharacter(n, sn), NextCharacter(n, sn));
      }
    }
  }

  /** Where case is ignored, changing the case of any letters of the pattern or the name changes no answer. */
  lemma CaseIsIgnored(p: Bytes, q: Bytes, n: Bytes, m: Bytes)
    requires SameButCase(p, q) && SameButCase(n, m)
    ensures Run(p, n, InsensitiveAscii) <==> Run(q, m, InsensitiveAscii)
  {
    RunsTheSame(p, q, None, 0, n, m, 0, 0);
  }

  lemma {:induction false} PlainRuns(p: Bytes, n: Bytes, i: nat, cs: CaseSensitivity)
    requires i <= |p| && i <= |n| && forall x :: 0 <= x < |p| ==> !Wild(p[x])
    ensures Runs(p, None, i, n, 0, i, cs) <==> |p| == |n| && forall x :: i <= x < |p| ==> EqualLiteral(p[x], n[x], cs)
    decreases |p| - i
  {
    if i < |p| {
      assert p[i] != STAR && p[i] != QUESTION;
      if i < |n| && EqualLiteral(p[i], n[i], cs) {
        PlainRuns(p, n, i + 1, cs);
      }
    }
  }

  /** A pattern without wildcards matches itself and nothing else, but for the case of letters where that is
      ignored. */
  lemma PlainMatchesItself(p: Bytes, n: Bytes)
    requires forall x :: 0 <= x < |p| ==> !Wild(p[x])
    ensures Run(p, n, Sensitive) <==> n == p
    ensures Run(p, n, InsensitiveAscii) <==> SameButCase(p, n)
  {
    PlainRuns(p, n, 0, Sensitive);
    PlainRuns(p, n, 0, InsensitiveAscii);
    assert n == p <==> |p| == |n| && forall x :: 0 <= x < |p| ==> p[x] == n[x];
    forall x | 0 <= x < |p| && x < |n|
      ensures EqualLiteral(p[x], n[x], Sensitive) <==> p[x] == n[x]
      ensures EqualLiteral(p[x], n[x], InsensitiveAscii) <==> p[x] == n[x] || TwoCases(p[x], n[x])
    {
      EqualLiteralMeaning(p[x], n[x]);
    }
  }

  // ----- paths ---------------------------------------------------------------------------------

  /** Where the component that begins at `from` ends: at the next separator, or at the end. */
  function ComponentEnd(path: Bytes, from: nat): (end: nat)
    requires from <= |path|
    ensures from <= end <= |path| && (end < |path| ==> path[end] == SLASH)
    ensures forall x :: from <= x < end ==> path[x] != SLASH
    decreases |path| - from
  {
    if from == |path| || path[from] == SLASH then from else ComponentEnd(path, from + 1)
  }

  /** The components of a path from `from` on. */
  function Components(path: Bytes, from: nat): (parts: seq<Bytes>)
    requires from <= |path|
    ensures |parts| >= 1
    decreases |path| - from
  {
    var end := ComponentEnd(path, from);
    [path[from..end]] + if end < |path| then Components(path, end + 1) else []
  }

  /** Paths match component by component, and have equally many. */
  predicate PathMatches(ps: seq<Bytes>, ns: seq<Bytes>, cs: CaseSensitivity) {
    if ps == [] || ns == [] then ps == ns else Match(ps[0], ns[0], cs) && PathMatches(ps[1..], ns[1..], cs)
  }

  /** What the path matcher answers: the component matcher is asked for each pair until one differs. */
  predicate PathRuns(ps: seq<Bytes>, ns: seq<Bytes>, cs: CaseSensitivity) {
    if ps == [] || ns == [] then ps == ns else Run(ps[0], ns[0], cs) && PathRuns(ps[1..], ns[1..], cs)
  }

  predicate WholeAll(ps: seq<Bytes>) {
    ps == [] || (Whole(ps[0]) && WholeAll(ps[1..]))
  }

  lemma {:induction false} PathMatchesMeaning(ps: seq<Bytes>, ns: seq<Bytes>, cs: CaseSensitivity)
    ensures PathMatches(ps, ns, cs) <==> |ps| == |ns| && forall i :: 0 <= i < |ps| ==> Match(ps[i], ns[i], cs)
    ensures PathRuns(ps, ns, cs) <==> |ps| == |ns| && forall i :: 0 <= i < |ps| ==> Run(ps[i], ns[i], cs)
    ensures WholeAll(ps) <==> forall i :: 0 <= i < |ps| ==> Whole(ps[i])
    decreases |ps|
  {
    if ps != [] {
      PathMatchesMeaning(ps[1..], if ns == [] then [] else ns[1..], cs);
      assert forall i :: 1 <= i < |ps| ==> ps[i] == ps[1..][i - 1];
      assert forall i :: 1 <= i < |ns| ==> ns[i] == ns[1..][i - 1];
    }
  }

  /** No path is matched that does not match; and if the component matcher is right about each pair, so is
      the path matcher about the paths. */
  lemma PathRunMeaning(ps: seq<Bytes>, ns: seq<Bytes>, cs: CaseSensitivity)
    ensures PathRuns(ps, ns, cs) ==> PathMatches(ps, ns, cs)
    ensures (forall i :: 0 <= i < |ps| && |ps| == |ns| ==> (Run(ps[i], ns[i], cs) <==> Match(ps[i], ns[i], cs))) ==>
            (PathRuns(ps, ns, cs) <==> PathMatches(ps, ns, cs))
    ensures WholeAll(ps) ==> (PathRuns(ps, ns, cs) <==> PathMatches(ps, ns, cs))
  {
    PathMatchesMeaning(ps, ns, cs);
    forall i | 0 <= i < |ps| && |ps| == |ns|
      ensures Run(ps[i], ns[i], cs) ==> Match(ps[i], ns[i], cs)
      ensures Whole(ps[i]) ==> (Run(ps[i], ns[i], cs) <==> Match(ps[i], ns[i], cs))
    {
      RunMeaning(ps[i], ns[i], cs);
    }
  }

  method FindSeparator(path: Bytes, from: nat) returns (end: nat)
    requires from <= |path|
    ensures end == ComponentEnd(path, from)
  {
    end := from;
    while end < |path| && path[end] != SLASH
      invariant from <= end <= |path| && ComponentEnd(path, end) == ComponentEnd(path, from)
    {
      end := end + 1;
    }
  }

  lemma PathMatchesByParts(p: Bytes, ps: seq<Bytes>, n: Bytes, ns: seq<Bytes>, cs: CaseSensitivity)
    ensures PathMatches([p] + ps, [n] + ns, cs) <==> Match(p, n, cs) && PathMatches(ps, ns, cs)
    ensures WholeAll([p] + ps) <==> Whole(p) && WholeAll(ps)
  {
    assert ([p] + ps)[1..] == ps && ([n] + ns)[1..] == ns;
  }

  function ComponentsAfter(path: Bytes, end: nat): seq<Bytes>
    requires end <= |path|
  {
    if end < |path| then Components(path, end + 1) else []
  }

  lemma FirstComponent(path: Bytes, from: nat)
    requires from <= |path|
    ensures var end := ComponentEnd(path, from);
            Components(path, from) == [path[from..end]] + ComponentsAfter(path, end) && (ComponentsAfter(path, end) == [] <==> end == |path|)
  {
  }

  /** The path matcher's answer from `po` and `no` on, in terms of positions. */
  predicate RunsFrom(p: Bytes, po: nat, n: Bytes, no: nat, cs: CaseSensitivity)
    requires po <= |p| && no <= |n|
    decreases |p| - po
  {
    var pe, ne := ComponentEnd(p, po), ComponentEnd(n, no);
    Run(p[po..pe], n[no..ne], cs) &&
    if pe == |p| || ne == |n| then pe == |p| && ne == |n| else RunsFrom(p, pe + 1, n, ne + 1, cs)
  }

  /** `parts` are the components from `from` on. */
  predicate AreComponents(path: Bytes, from: nat, parts: seq<Bytes>)
    requires from <= |path|
    decreases |path| - from
  {
    var end := ComponentEnd(path, from);
    && parts != [] && parts[0] == path[from..end]
    && if end == |path| then |parts| == 1 else |parts| > 1 && AreComponents(path, end + 1, parts[1..])
  }

  lemma {:induction false} ComponentsAreThey(path: Bytes, from: nat)
    requires from <= |path|
    ensures AreComponents(path, from, Components(path, from))
    decreases |path| - from
  {
    var end := ComponentEnd(path, from);
    FirstComponent(path, from);
    if end < |path| {
      ComponentsAreThey(path, end + 1);
      assert Components(path, from)[1..] == Components(path, end + 1);
    }
  }

  /** That is: component by component. */
  lemma {:induction false} RunsFromMeaning(p: Bytes, po: nat, ps: seq<Bytes>, n: Bytes, no: nat, ns: seq<Bytes>, cs: CaseSensitivity)
    requires po <= |p| && no <= |n| && AreComponents(p, po, ps) && AreComponents(n, no, ns)
    ensures RunsFrom(p, po, n, no, cs) <==> PathRuns(ps, ns, cs)
    decreases |p| - po
  {
    var pe, ne := ComponentEnd(p, po), ComponentEnd(n, no);
    if pe < |p| && ne < |n| {
      RunsFromMeaning(p, pe + 1, ps[1..], n, ne + 1, ns[1..], cs);
    }
  }

  /** The loop over the components. */
  method MatchComponents(p: Bytes, n: Bytes, cs: CaseSensitivity) returns (r: bool)
    ensures r <==> RunsFrom(p, 0, n, 0, cs)
  {
    var po: nat, no: nat := 0, 0;
    while true
      invariant po <= |p| && no <= |n|
      invariant RunsFrom(p, po, n, no, cs) <==> RunsFrom(p, 0, n, 0, cs)
      decreases |p| - po
    {
      var pe := FindSeparator(p, po);
      var ne := FindSeparator(n, no);
      var one := MatchComponent(p[po..pe], n[no..ne], cs);
      if !one {
        return false;
      }
      if pe == |p| || ne == |n| {
        return pe == |p| && ne == |n|;
      }
      po, no := pe + 1, ne + 1;
    }
  }

  /** The path matcher: `true` means that the paths match; and for whole patterns the answer is exact. */
  method MatchPath(p: Bytes, n: Bytes, cs: CaseSensitivity) returns (r: bool)
    ensures r <==> PathRuns(Components(p, 0), Components(n, 0), cs)
    ensures r ==> PathMatches(Components(p, 0), Components(n, 0), cs)
    ensures WholeAll(Components(p, 0)) ==> (r <==> PathMatches(Components(p, 0), Components(n, 0), cs))
  {
    ComponentsAreThey(p, 0);
    ComponentsAreThey(n, 0);
    RunsFromMeaning(p, 0, Components(p, 0), n, 0, Components(n, 0), cs);
    PathRunMeaning(Components(p, 0), Components(n, 0), cs);
    r := MatchComponents(p, n, cs);
  }

  // ----- the rules -----------------------------------------------------------------------------

  datatype Pattern = Pattern(text: Bytes, nameOnly: bool, directoryOnly: bool)

  function Normalized(path: Bytes): (r: Bytes)
    ensures |r| == |path|
  {
    seq(|path|, i requires 0 <= i < |path| => if path[i] == BACKSLASH then SLASH else path[i])
  }

  method NormalizeSeparators(path: Bytes) returns (r: Bytes)
    ensures r == Normalized(path)
  {
    r := path;
    for i := 0 to |r|
      invariant |r| == |path| && r[..i] == Normalized(path)[..i] && r[i..] == path[i..]
    {
      if r[i] == BACKSLASH {
        r := r[i := SLASH];
      }
    }
  }

  predicate IsSeparator(b: Byte) {
    b == SLASH || b == BACKSLASH
  }

  /** The texts differ at most in which separators they use. */
  predicate SameButSeparators(a: Bytes, b: Bytes) {
    |a| == |b| && forall i :: 0 <= i < |a| ==> a[i] == b[i] || (IsSeparator(a[i]) && IsSeparator(b[i]))
  }

  /** Normalizing leaves one of the texts that differ only in their separators, the one without backslashes. */
  lemma NormalizedMeaning(a: Bytes, b: Bytes)
    ensures SameButSeparators(a, Normalized(a)) && BACKSLASH !in Normalized(a)
    ensures Normalized(a) == Normalized(b) <==> SameButSeparators(a, b)
  {
    if Normalized(a) == Normalized(b) {
      assert forall i :: 0 <= i < |a| ==> Normalized(a)[i] == Normalized(b)[i];
    }
  }

  /** So it is all the same which separators a line of the file uses. */
  lemma SeparatorsAreAlike(a: Bytes, b: Bytes)
    requires SameButSeparators(a, b)
    ensures ParseLine(a) == ParseLine(b)
  {
    var front, other := a[..if a == [] then 0 else |a| - 1], b[..if b == [] then 0 else |b| - 1];
    assert SameButSeparators(front, other);
    NormalizedMeaning(a, b);
    NormalizedMeaning(front, other);
  }

  predicate HasSlash(text: Bytes) {
    exists i :: 0 <= i < |text| && text[i] == SLASH
  }

  /** What follows the last separator. */
  function NameOf(path: Bytes): (name: Bytes)
    ensures !HasSlash(name) && |name| <= |path|
  {
    if path == [] then []
    else if path[|path| - 1] == SLASH then []
    else NameOf(path[..|path| - 1]) + [path[|path| - 1]]
  }

  /** A line of an ignore file: without its carriage return; blank lines and comments say nothing; a
      final separator restricts the pattern to directories. */
  function ParseLine(line: Bytes): (r: Option<Pattern>)
    ensures r.Some? ==> r.value.text != [] && (r.value.nameOnly <==> !HasSlash(r.value.text))
  {
    var bare := if line != [] && line[|line| - 1] == RETURN then line[..|line| - 1] else line;
    if bare == [] || bare[0] == HASH then None
    else
      var text := Normalized(bare);
      var directoryOnly := text[|text| - 1] == SLASH;
      var rest := if directoryOnly then text[..|text| - 1] else text;
      if rest == [] then None else Some(Pattern(rest, !HasSlash(rest), directoryOnly))
  }

  lemma PlainLine(text: Bytes)
    requires text != [] && text[0] != HASH && text[|text| - 1] != RETURN && text[|text| - 1] != SLASH
    requires forall i :: 0 <= i < |text| ==> text[i] != BACKSLASH
    ensures ParseLine(text) == Some(Pattern(text, !HasSlash(text), false))
  {
    assert Normalized(text) == text;
  }

  lemma DirectoryLine(text: Bytes, separator: Byte)
    requires text != [] && text[0] != HASH && (separator == SLASH || separator == BACKSLASH)
    requires forall i :: 0 <= i < |text| ==> text[i] != BACKSLASH
    ensures ParseLine(text + [separator]) == Some(Pattern(text, !HasSlash(text), true))
  {
    assert Normalized(text + [separator]) == text + [SLASH];
    assert (text + [SLASH])[..|text|] == text;
  }

  /** A line with a name or path that needs no change is that rule; a final separator makes it a rule for
      directories, a carriage return at the end is no part of it, and a comment is no rule. */
  lemma ParseLineMeaning(text: Bytes)
    requires text != [] && text[0] != HASH && text[|text| - 1] != RETURN && text[|text| - 1] != SLASH
    requires forall i :: 0 <= i < |text| ==> text[i] != BACKSLASH
    ensures ParseLine(text) == Some(Pattern(text, !HasSlash(text), false))
    ensures ParseLine(text + [SLASH]) == Some(Pattern(text, !HasSlash(text), true))
    ensures ParseLine(text + [BACKSLASH]) == ParseLine(text + [SLASH])
    ensures ParseLine(text + [RETURN]) == ParseLine(text)
    ensures ParseLine([HASH] + text) == None
  {
    PlainLine(text);
    DirectoryLine(text, SLASH);
    DirectoryLine(text, BACKSLASH);
    assert (text + [RETURN])[..|text|] == text;
  }

  predicate Applies(pattern: Pattern, path: Bytes, isDirectory: bool, cs: CaseSensitivity) {
    && (pattern.directoryOnly ==> isDirectory)
    && PathMatches(Components(pattern.text, 0), Components(if pattern.nameOnly then NameOf(path) else path, 0), cs)
  }

  /** What the code makes of one rule. */
  predicate Hits(pattern: Pattern, path: Bytes, isDirectory: bool, cs: CaseSensitivity) {
    && (pattern.directoryOnly ==> isDirectory)
    && PathRuns(Components(pattern.text, 0), Components(if pattern.nameOnly then NameOf(path) else path, 0), cs)
  }

  /** One of the first `n` rules applies to the path. */
  predicate ExcludedBy(patterns: seq<Pattern>, n: nat, path: Bytes, isDirectory: bool, cs: CaseSensitivity)
    requires n <= |patterns|
  {
    n > 0 && (Applies(patterns[n - 1], path, isDirectory, cs) || ExcludedBy(patterns, n - 1, path, isDirectory, cs))
  }

  predicate Excluded(patterns: seq<Pattern>, path: Bytes, isDirectory: bool, cs: CaseSensitivity) {
    ExcludedBy(patterns, |patterns|, Normalized(path), isDirectory, cs)
  }

  /** And which a path uses. */
  lemma PathSeparatorsAreAlike(patterns: seq<Pattern>, a: Bytes, b: Bytes, isDirectory: bool, cs: CaseSensitivity)
    requires SameButSeparators(a, b)
    ensures Excluded(patterns, a, isDirectory, cs) <==> Excluded(patterns, b, isDirectory, cs)
  {
    NormalizedMeaning(a, b);
  }

  /** A path is excluded when some rule applies to it, whichever one. */
  lemma {:induction false} ExcludedMeaning(patterns: seq<Pattern>, n: nat, path: Bytes, isDirectory: bool, cs: CaseSensitivity)
    requires n <= |patterns|
    ensures ExcludedBy(patterns, n, path, isDirectory, cs) <==> exists i :: 0 <= i < n && Applies(patterns[i], path, isDirectory, cs)
  {
    if n > 0 {
      ExcludedMeaning(patterns, n - 1, path, isDirectory, cs);
    }
  }

  lemma {:induction false} StaysExcluded(patterns: seq<Pattern>, m: nat, n: nat, path: Bytes, isDirectory: bool, cs: CaseSensitivity)
    requires m <= n <= |patterns| && ExcludedBy(patterns, m, path, isDirectory, cs)
    ensures ExcludedBy(patterns, n, path, isDirectory, cs)
    decreases n - m
  {
    if m < n {
      StaysExcluded(patterns, m, n - 1, path, isDirectory, cs);
    }
  }

  predicate AllWhole(patterns: seq<Pattern>) {
    forall i :: 0 <= i < |patterns| ==> WholeAll(Components(patterns[i].text, 0))
  }

  lemma WholeRule(patterns: seq<Pattern>, i: nat)
    requires i < |patterns|
    ensures AllWhole(patterns) ==> WholeAll(Components(patterns[i].text, 0))
  {
  }

  class IgnoreRules {
    const patterns: seq<Pattern>
    const cs: CaseSensitivity

    constructor (patterns: seq<Pattern>, cs: CaseSensitivity)
      ensures this.patterns == patterns && this.cs == cs
    {
      this.patterns, this.cs := patterns, cs;
    }

    method MatchRule(pattern: Pattern, normalized: Bytes, isDirectory: bool) returns (r: bool)
      ensures r <==> Hits(pattern, normalized, isDirectory, cs)
      ensures r ==> Applies(pattern, normalized, isDirectory, cs)
      ensures WholeAll(Components(pattern.text, 0)) ==> (r <==> Applies(pattern, normalized, isDirectory, cs))
    {
      if pattern.directoryOnly && !isDirectory {
        return false;
      }
      var candidate := if pattern.nameOnly then NameOf(normalized) else normalized;
      r := MatchPath(pattern.text, candidate, cs);
    }

    /** A path is ignored only if some rule applies to it, and, when the patterns are made of whole
        characters, whenever one does; what is ignored and a directory is not entered. */
    method MatchRules(path: Bytes, isDirectory: bool) returns (ignored: bool, prune: bool)
      ensures prune <==> ignored && isDirectory
      ensures ignored <==> exists i :: 0 <= i < |patterns| && Hits(patterns[i], Normalized(path), isDirectory, cs)
      ensures ignored ==> Excluded(patterns, path, isDirectory, cs)
      ensures AllWhole(patterns) ==> (ignored <==> Excluded(patterns, path, isDirectory, cs))
    {
      var normalized := NormalizeSeparators(path);
      for i := 0 to |patterns|
        invariant forall k :: 0 <= k < i ==> !Hits(patterns[k], normalized, isDirectory, cs)
        invariant AllWhole(patterns) ==> !ExcludedBy(patterns, i, normalized, isDirectory, cs)
      {
        WholeRule(patterns, i);
        var matched := MatchRule(patterns[i], normalized, isDirectory);
        if matched {
          StaysExcluded(patterns, i + 1, |patterns|, normalized, isDirectory, cs);
          return true, isDirectory;
        }
      }
      return false, false;
    }
  }

  lemma {:induction false} NoSeparatorFrom(text: Bytes, from: nat)
    requires from <= |text| && forall x :: from <= x < |text| ==> text[x] != SLASH
    ensures ComponentEnd(text, from) == |text| && Components(text, from) == [text[from..]]
    decreases |text| - from
  {
    if from < |text| {
      NoSeparatorFrom(text, from + 1);
    }
    assert text[from..|text|] == text[from..];
  }

  lemma {:induction false} NameAfterSeparator(path: Bytes, s: nat)
    requires s < |path| && path[s] == SLASH && forall x :: s < x < |path| ==> path[x] != SLASH
    ensures NameOf(path) == path[s + 1..]
    decreases |path|
  {
    if s < |path| - 1 {
      var front := path[..|path| - 1];
      NameAfterSeparator(front, s);
      assert path[s + 1..] == front[s + 1..] + [path[|path| - 1]];
    }
  }

  lemma {:induction false} NameWithoutSeparator(path: Bytes)
    requires !HasSlash(path)
    ensures NameOf(path) == path
  {
    if path != [] {
      var front := path[..|path| - 1];
      assert forall i :: 0 <= i < |front| ==> front[i] == path[i];
      NameWithoutSeparator(front);
      assert path == front + [path[|path| - 1]];
    }
  }

  lemma NameIsTheRest(path: Bytes, from: nat)
    requires from <= |path| && (from > 0 ==> path[from - 1] == SLASH) && ComponentEnd(path, from) == |path|
    ensures NameOf(path) == path[from..|path|]
  {
    if from > 0 {
      NameAfterSeparator(path, from - 1);
    } else {
      NameWithoutSeparator(path);
    }
  }

  /** The name of a path is its last component. */
  lemma {:induction false} NameIsLastComponent(path: Bytes, from: nat)
    requires from <= |path| && (from > 0 ==> path[from - 1] == SLASH)
    ensures var parts := Components(path, from); parts[|parts| - 1] == NameOf(path)
    decreases |path| - from
  {
    if ComponentEnd(path, from) < |path| {
      NameIsLastComponent(path, ComponentEnd(path, from) + 1);
      LastOfComponents(path, from);
    } else {
      NameIsOnlyComponent(path, from);
    }
  }

  lemma NameIsOnlyComponent(path: Bytes, from: nat)
    requires from <= |path| && (from > 0 ==> path[from - 1] == SLASH) && ComponentEnd(path, from) == |path|
    ensures var parts := Components(path, from); parts[|parts| - 1] == NameOf(path)
  {
    LastOfComponents(path, from);
    NameIsTheRest(path, from);
  }

  lemma LastOfComponents(path: Bytes, from: nat)
    requires from <= |path|
    ensures var end, parts := ComponentEnd(path, from), Components(path, from);
            parts[|parts| - 1] ==
            if end < |path| then Components(path, end + 1)[|Components(path, end + 1)| - 1] else path[from..|path|]
  {
    FirstComponent(path, from);
  }

  /** A pattern without a separator applies by the last component of the path, wherever the path leads. */
  lemma NameOnlyMatchesLast(pattern: Pattern, path: Bytes, isDirectory: bool, cs: CaseSensitivity)
    requires pattern.nameOnly && !HasSlash(pattern.text)
    ensures var parts := Components(path, 0);
            Applies(pattern, path, isDirectory, cs) <==>
            (pattern.directoryOnly ==> isDirectory) && Match(pattern.text, parts[|parts| - 1], cs)
  {
    NameIsLastComponent(path, 0);
    var name := NameOf(path);
    NoSeparatorFrom(pattern.text, 0);
    NoSeparatorFrom(name, 0);
    assert pattern.text[0..] == pattern.text && name[0..] == name;
    SingleComponents(pattern.text, name, cs);
  }

  lemma SingleComponents(p: Bytes, n: Bytes, cs: CaseSensitivity)
    ensures PathMatches([p], [n], cs) <==> Match(p, n, cs)
  {
    PathMatchesByParts(p, [], n, [], cs);
    assert [p] + [] == [p] && [n] + [] == [n];
  }
}
