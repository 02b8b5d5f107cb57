/** Where the matcher is exact. Names are valid UTF-8, as the scanner makes sure; patterns are any bytes.
    The pattern alone decides: the positions of the two are followed by the state that a UTF-8 decoder is in,
    which a byte of the pattern determines as well as the byte of the name that it matches. */
module Exactness {
  import opened Common
  import opened Ignoring
  import Utf8

  // ----- the state within a character ----------------------------------------------------------

  /** How many bytes of the character are still to come, and the range of the next one. */
  datatype DecoderState = DecoderState(rem: nat, low: Byte, high: Byte)

  const BOUNDARY := DecoderState(0, 0x80, 0xBF)

  type State = s: DecoderState | s.rem <= 3 && 0x80 <= s.low < s.high <= 0xBF && (s.rem == 0 ==> s == BOUNDARY) witness BOUNDARY

  /** Inside a character, `rem` bytes before its end, the first two bytes being behind. */
  function Within(rem: nat): State
    requires rem <= 3
  {
    DecoderState(rem, 0x80, 0xBF)
  }

  function Follow(s: State): State
    requires s.rem > 0
  {
    Within(s.rem - 1)
  }

  function Opened(first: Byte): State
    requires Utf8.Announced(first) > 0
  {
    if first == 0xE0 then DecoderState(2, 0xA0, 0xBF)
    else if first == 0xED then DecoderState(2, 0x80, 0x9F)
    else if first == 0xF0 then DecoderState(3, 0x90, 0xBF)
    else if first == 0xF4 then DecoderState(3, 0x80, 0x8F)
    else Within(Utf8.Announced(first) - 1)
  }

  function Step(s: State, b: Byte): Option<State> {
    if s.rem > 0 then if s.low <= b <= s.high then Some(Follow(s)) else None
    else if Utf8.Announced(b) > 0 then Some(Opened(b))
    else None
  }

  /** One character, or what is left of one, further. */
  function Next(s: State): State {
    if s.rem == 0 then BOUNDARY else Follow(s)
  }

  /** The text is valid from `j` on, `s` being the state there. */
  predicate ValidAt(n: Bytes, j: nat, s: State)
    requires j <= |n|
    decreases |n| - j
  {
    if j == |n| then s.rem == 0 else Step(s, n[j]).Some? && ValidAt(n, j + 1, Step(s, n[j]).value)
  }

  lemma {:induction false} RestOfCharacter(n: Bytes, j: nat, s: State)
    requires j <= |n| && ValidAt(n, j, s)
    ensures j + s.rem <= |n| && ValidAt(n, j + s.rem, BOUNDARY)
    ensures forall x :: j <= x < j + s.rem ==> 0x80 <= n[x] <= 0xBF
    decreases s.rem
  {
    if s.rem > 0 {
      RestOfCharacter(n, j + 1, Follow(s));
    }
  }

  /** The matcher's steps from character to character are those of the decoder. */
  lemma NextIsNext(n: Bytes, j: nat, s: State)
    requires j < |n| && ValidAt(n, j, s)
    ensures ValidAt(n, NextCharacter(n, j), Next(s))
    ensures NextCharacter(n, j) == if s.rem > 0 then j + 1 else j + 1 + Opened(n[j]).rem
  {
    if s.rem == 0 {
      RestOfCharacter(n, j + 1, Opened(n[j]));
      assert CharacterLength(n[j]) == 1 + Opened(n[j]).rem;
    }
  }

  lemma InsideStep(n: Bytes, j: nat, s: State)
    requires j <= |n| && ValidAt(n, j, s) && s.rem > 0
    ensures j < |n| && NextCharacter(n, j) == j + 1 && ValidAt(n, j + 1, Follow(s))
  {
  }

  /** The state `x` bytes on, as far as the character goes. */
  function StateAt(s: State, x: nat): State {
    if x == 0 then s else if x < s.rem then Within(s.rem - x) else BOUNDARY
  }

  /** Nothing begins inside a character. */
  lemma BoundaryIsOutside(n: Bytes, a: nat, b: nat)
    requires a < b <= |n| && ValidAt(n, a, BOUNDARY) && ValidAt(n, b, BOUNDARY)
    ensures NextCharacter(n, a) <= b
  {
    NextIsNext(n, a, BOUNDARY);
    RestOfCharacter(n, a + 1, Opened(n[a]));
  }

  /** From anywhere, every later boundary is reached. */
  lemma {:induction false} BoundaryIsReached(n: Bytes, a: nat, s: State, b: nat)
    requires a <= b <= |n| && ValidAt(n, a, s) && ValidAt(n, b, BOUNDARY)
    ensures Reaches(n, a, b)
    decreases b - a
  {
    if a < b {
      NextIsNext(n, a, s);
      if s.rem == 0 {
        BoundaryIsOutside(n, a, b);
      }
      BoundaryIsReached(n, NextCharacter(n, a), Next(s), b);
    }
  }

  lemma {:induction false} StateReached(n: Bytes, a: nat, s: State, b: nat)
    requires a <= |n| && b <= |n| && ValidAt(n, a, s) && Reaches(n, a, b)
    ensures a <= b && ValidAt(n, b, StateAt(s, b - a))
    decreases |n| - a
  {
    if a != b {
      NextIsNext(n, a, s);
      StateReached(n, NextCharacter(n, a), Next(s), b);
    }
  }

  lemma {:induction false} ReachedIf(n: Bytes, a: nat, s: State, b: nat)
    requires a <= b <= |n| && ValidAt(n, a, s) && ValidAt(n, b, StateAt(s, b - a))
    ensures Reaches(n, a, b)
    decreases b - a
  {
    if b - a >= s.rem {
      BoundaryIsReached(n, a, s, b);
    } else if a < b {
      NextIsNext(n, a, s);
      ReachedIf(n, a + 1, Follow(s), b);
    }
  }

  // ----- the pattern followed by states --------------------------------------------------------

  function TokenStep(s: State, token: Byte): Option<State> {
    if token == QUESTION then Some(Next(s)) else Step(s, token)
  }

  /** The state after a star-free stretch of the pattern that begins in state `s`, if any valid name can have
      been matched. */
  function Stretch(p: Bytes, i: nat, k: nat, s: State): Option<State>
    requires i <= k <= |p|
    decreases k - i
  {
    if i == k then Some(s)
    else match TokenStep(s, p[i])
      case None => None
      case Some(t) => Stretch(p, i + 1, k, t)
  }

  lemma SameStep(s: State, a: Byte, b: Byte, cs: CaseSensitivity)
    requires EqualLiteral(a, b, cs)
    ensures Step(s, a) == Step(s, b)
  {
  }

  /** One token of the pattern takes name and state along. */
  lemma TokenWalks(p: Bytes, i: nat, n: Bytes, j: nat, s: State, cs: CaseSensitivity)
    requires i < |p| && j <= |n| && ValidAt(n, j, s) && p[i] != STAR && Walk(p, i, i + 1, n, j, cs).Some?
    ensures j < |n| && TokenStep(s, p[i]).Some? && ValidAt(n, Walk(p, i, i + 1, n, j, cs).value, TokenStep(s, p[i]).value)
    ensures Walk(p, i, i + 1, n, j, cs).value == if p[i] == QUESTION then NextCharacter(n, j) else j + 1
  {
    if p[i] == QUESTION {
      NextIsNext(n, j, s);
    } else {
      SameStep(s, p[i], n[j], cs);
    }
  }

  lemma {:induction false} StretchWalks(p: Bytes, i: nat, k: nat, n: Bytes, j: nat, s: State, cs: CaseSensitivity)
    requires i <= k <= |p| && j <= |n| && ValidAt(n, j, s) && StarFree(p, i, k) && Walk(p, i, k, n, j, cs).Some?
    ensures Stretch(p, i, k, s).Some? && ValidAt(n, Walk(p, i, k, n, j, cs).value, Stretch(p, i, k, s).value)
    decreases k - i
  {
    if i < k {
      TokenWalks(p, i, n, j, s, cs);
      StretchWalks(p, i + 1, k, n, if p[i] == QUESTION then NextCharacter(n, j) else j + 1, TokenStep(s, p[i]).value, cs);
    }
  }

  /** Two positions in the name, the first not after the second: either the second is reached from the first,
      or both are at the same point inside different characters. */
  predicate Ordered(a: nat, s: State, b: nat, t: State) {
    a <= b && (t == StateAt(s, b - a) || (s == t && a + s.rem <= b))
  }

  /** Character by character the order is kept. */
  lemma OrderedNext(n: Bytes, a: nat, s: State, b: nat, t: State)
    requires a < |n| && b < |n| && ValidAt(n, a, s) && ValidAt(n, b, t) && Ordered(a, s, b, t)
    ensures Ordered(NextCharacter(n, a), Next(s), NextCharacter(n, b), Next(t))
    ensures ValidAt(n, NextCharacter(n, a), Next(s)) && ValidAt(n, NextCharacter(n, b), Next(t))
  {
    NextIsNext(n, a, s);
    NextIsNext(n, b, t);
    if s.rem == 0 && a < b {
      BoundaryIsOutside(n, a, b);
    }
  }

  /** And if the same literal is found at both. */
  lemma OrderedLiteral(n: Bytes, a: nat, s: State, b: nat, t: State, literal: Byte, cs: CaseSensitivity)
    requires a < |n| && b < |n| && ValidAt(n, a, s) && ValidAt(n, b, t) && Ordered(a, s, b, t)
    requires EqualLiteral(literal, n[a], cs) && EqualLiteral(literal, n[b], cs)
    ensures Step(s, literal).Some? && Step(t, literal).Some? && Ordered(a + 1, Step(s, literal).value, b + 1, Step(t, literal).value)
    ensures ValidAt(n, a + 1, Step(s, literal).value) && ValidAt(n, b + 1, Step(t, literal).value)
  {
    SameStep(s, literal, n[a], cs);
    SameStep(t, literal, n[b], cs);
    if s.rem == 0 && a < b {
      NextIsNext(n, a, s);
      BoundaryIsOutside(n, a, b);
      SameStep(s, n[a], literal, cs);
    }
  }

  /** One token, matched at both positions, is taken off both walks. */
  lemma OrderedToken(p: Bytes, i: nat, k: nat, n: Bytes, a: nat, s: State, b: nat, t: State, cs: CaseSensitivity)
    returns (a': nat, s': State, b': nat, t': State)
    requires i < k <= |p| && a < |n| && b < |n| && ValidAt(n, a, s) && ValidAt(n, b, t) && Ordered(a, s, b, t) && p[i] != STAR
    requires p[i] != QUESTION ==> EqualLiteral(p[i], n[a], cs) && EqualLiteral(p[i], n[b], cs)
    ensures a' <= |n| && b' <= |n| && ValidAt(n, a', s') && ValidAt(n, b', t') && Ordered(a', s', b', t')
    ensures a' == if p[i] == QUESTION then NextCharacter(n, a) else a + 1
    ensures Walk(p, i, k, n, a, cs) == Walk(p, i + 1, k, n, a', cs) && Walk(p, i, k, n, b, cs) == Walk(p, i + 1, k, n, b', cs)
    ensures Stretch(p, i, k, s) == Stretch(p, i + 1, k, s') && Stretch(p, i, k, t) == Stretch(p, i + 1, k, t')
  {
    if p[i] == QUESTION {
      OrderedNext(n, a, s, b, t);
      a', s', b', t' := NextCharacter(n, a), Next(s), NextCharacter(n, b), Next(t);
    } else {
      OrderedLiteral(n, a, s, b, t, p[i], cs);
      a', s', b', t' := a + 1, Step(s, p[i]).value, b + 1, Step(t, p[i]).value;
    }
  }

  lemma WalkBegins(p: Bytes, i: nat, k: nat, n: Bytes, j: nat, cs: CaseSensitivity)
    requires i < k <= |p| && j <= |n| && Walk(p, i, k, n, j, cs).Some?
    ensures j < |n| && p[i] != STAR && (p[i] != QUESTION ==> EqualLiteral(p[i], n[j], cs))
  {
  }

  /** Walks of the same stretch keep their order. */
  lemma {:induction false} OrderedStretch(p: Bytes, i: nat, k: nat, n: Bytes, a: nat, s: State, b: nat, t: State, cs: CaseSensitivity)
    requires i <= k <= |p| && a <= |n| && b <= |n| && ValidAt(n, a, s) && ValidAt(n, b, t) && Ordered(a, s, b, t)
    requires Walk(p, i, k, n, a, cs).Some? && Walk(p, i, k, n, b, cs).Some?
    ensures Stretch(p, i, k, s).Some? && Stretch(p, i, k, t).Some?
    ensures Ordered(Walk(p, i, k, n, a, cs).value, Stretch(p, i, k, s).value, Walk(p, i, k, n, b, cs).value, Stretch(p, i, k, t).value)
    decreases k - i
  {
    if i < k {
      WalkBegins(p, i, k, n, a, cs);
      WalkBegins(p, i, k, n, b, cs);
      var a', s', b', t' := OrderedToken(p, i, k, n, a, s, b, t, cs);
      OrderedStretch(p, i + 1, k, n, a', s', b', t', cs);
    }
  }

  // ----- what is wrong with a pattern ----------------------------------------------------------

  /** The pattern from `i` on matches some valid rest of a name, from state `s` on. */
  predicate Alive(p: Bytes, i: nat, s: State)
    requires i <= |p|
    decreases |p| - i, s.rem
  {
    if i == |p| then s.rem == 0
    else if p[i] == STAR then Alive(p, i + 1, s) || (s.rem > 0 && Alive(p, i, Follow(s)))
    else TokenStep(s, p[i]).Some? && Alive(p, i + 1, TokenStep(s, p[i]).value)
  }

  /** It does so with its next literal inside the character that `s` is in. */
  predicate Inside(p: Bytes, i: nat, s: State)
    requires i <= |p|
    decreases |p| - i, s.rem
  {
    if i == |p| || s.rem == 0 then false
    else if p[i] == STAR then Inside(p, i + 1, s) || Inside(p, i, Follow(s))
    else if p[i] == QUESTION then Inside(p, i + 1, Follow(s))
    else Step(s, p[i]).Some? && Alive(p, i + 1, Step(s, p[i]).value)
  }

  function NextStar(p: Bytes, i: nat): (k: nat)
    requires i <= |p|
    ensures i <= k <= |p| && StarFree(p, i, k) && (k < |p| ==> p[k] == STAR)
    decreases |p| - i
  {
    if i == |p| || p[i] == STAR then i else NextStar(p, i + 1)
  }

  /** The stretch between the star at `i` and the next one, begun between characters, ends inside a character,
      and what follows the next star goes on inside that character. */
  predicate BrokenHere(p: Bytes, i: nat)
    requires i < |p|
  {
    var k := NextStar(p, i + 1);
    k < |p| && Stretch(p, i + 1, k, BOUNDARY).Some? && Inside(p, k, Stretch(p, i + 1, k, BOUNDARY).value)
  }

  /** Some star of the pattern from `i` on is of this kind, and a valid name can have led there. */
  predicate BrokenFrom(p: Bytes, i: nat, s: State)
    requires i <= |p|
    decreases |p| - i, s.rem
  {
    if i == |p| then false
    else if p[i] == STAR then BrokenHere(p, i) || BrokenFrom(p, i + 1, s) || (s.rem > 0 && BrokenFrom(p, i, Follow(s)))
    else TokenStep(s, p[i]).Some? && BrokenFrom(p, i + 1, TokenStep(s, p[i]).value)
  }

  /** The stretch after the star at `i` can begin at two places inside one and the same character, with the
      same outcome: it ends inside a further one, and what follows the next star goes on there. */
  predicate LooseHere(p: Bytes, i: nat, s: State)
    requires i < |p|
  {
    var k := NextStar(p, i + 1);
    k < |p| && Stretch(p, i + 1, k, s).Some? && Inside(p, k, Stretch(p, i + 1, k, s).value) &&
    exists y :: 0 < y < s.rem && Stretch(p, i + 1, k, StateAt(s, y)) == Stretch(p, i + 1, k, s) && BothFit(p, i + 1, k, s.rem, y)
  }

  /** Begun `y` bytes apart, with `rem` bytes of the character to come, the stretch asks for no byte of it to be
      two different ones. */
  predicate BothFit(p: Bytes, i: nat, k: nat, rem: nat, y: nat)
    requires i <= k <= |p|
  {
    forall x :: i <= x && x + y < k && x + y < i + rem ==> p[x] == QUESTION || p[x + y] == QUESTION || p[x] == p[x + y]
  }

  predicate LooseFrom(p: Bytes, i: nat, s: State)
    requires i <= |p|
    decreases |p| - i, s.rem
  {
    if i == |p| then false
    else if p[i] == STAR then LooseHere(p, i, s) || LooseFrom(p, i + 1, s) || (s.rem > 0 && LooseFrom(p, i, Follow(s)))
    else TokenStep(s, p[i]).Some? && LooseFrom(p, i + 1, TokenStep(s, p[i]).value)
  }

  predicate Broken(p: Bytes) {
    BrokenFrom(p, 0, BOUNDARY)
  }

  predicate Loose(p: Bytes) {
    LooseFrom(p, 0, BOUNDARY)
  }

  // ----- exact where nothing is wrong ----------------------------------------------------------

  lemma {:induction false} MatchedIsAlive(p: Bytes, i: nat, n: Bytes, j: nat, s: State, cs: CaseSensitivity)
    requires i <= |p| && j <= |n| && ValidAt(n, j, s) && Matches(p, i, n, j, cs)
    ensures Alive(p, i, s)
    decreases |p| - i, |n| - j
  {
    if i < |p| {
      if p[i] != STAR {
        TokenWalks(p, i, n, j, s, cs);
        MatchedIsAlive(p, i + 1, n, if p[i] == QUESTION then NextCharacter(n, j) else j + 1, TokenStep(s, p[i]).value, cs);
      } else if Matches(p, i + 1, n, j, cs) {
        MatchedIsAlive(p, i + 1, n, j, s, cs);
      } else {
        NextIsNext(n, j, s);
        MatchedIsAlive(p, i, n, NextCharacter(n, j), Next(s), cs);
      }
    }
  }

  /** The position before one that is reached. */
  lemma {:induction false} ReachedBefore(n: Bytes, a: nat, b: nat) returns (c: nat)
    requires a < |n| && b <= |n| && Reaches(n, NextCharacter(n, a), b)
    ensures c < |n| && Reaches(n, a, c) && NextCharacter(n, c) == b
    decreases |n| - a
  {
    c := a;
    if NextCharacter(n, a) != b {
      c := ReachedBefore(n, NextCharacter(n, a), b);
    }
  }

  /** What matches from inside a later character, its next literal not being inside that character, matches
      from a position reached from the same point inside an earlier one. */
  lemma {:induction false} CatchUp(p: Bytes, i: nat, n: Bytes, a: nat, b: nat, s: State, cs: CaseSensitivity) returns (y: nat)
    requires i <= |p| && a <= |n| && b <= |n| && ValidAt(n, a, s) && ValidAt(n, b, s) && s.rem > 0 && a + s.rem <= b
    requires Matches(p, i, n, b, cs) && !Inside(p, i, s)
    ensures y <= |n| && Reaches(n, a, y) && Matches(p, i, n, y, cs)
    decreases |p| - i, s.rem
  {
    if p[i] == STAR && Matches(p, i + 1, n, b, cs) {
      y := CatchUp(p, i + 1, n, a, b, s, cs);
    } else if p[i] == STAR && s.rem > 1 {
      y := CatchUp(p, i, n, a + 1, b + 1, Follow(s), cs);
      InsideStep(n, a, s);
    } else if p[i] == STAR {
      InsideStep(n, b, s);
      y := b + 1;
      BoundaryIsReached(n, a, s, y);
    } else if p[i] == QUESTION {
      InsideStep(n, a, s);
      InsideStep(n, b, s);
      var z := b + 1;
      if s.rem > 1 {
        z := CatchUp(p, i + 1, n, a + 1, b + 1, Follow(s), cs);
      } else {
        BoundaryIsReached(n, a + 1, Follow(s), z);
      }
      y := ReachedBefore(n, a, z);
    } else {
      TokenWalks(p, i, n, b, s, cs);
      MatchedIsAlive(p, i + 1, n, b + 1, Step(s, p[i]).value, cs);
      assert false;
    }
  }

  /** Within a character a walk goes byte by byte, and a literal is the byte that it meets. */
  lemma {:induction false} InsideWalk(p: Bytes, i: nat, k: nat, n: Bytes, j: nat, s: State, x: nat, cs: CaseSensitivity)
    requires i <= x < k <= |p| && x < i + s.rem && j <= |n| && ValidAt(n, j, s) && Walk(p, i, k, n, j, cs).Some?
    ensures j + (x - i) < |n| && (p[x] != QUESTION ==> p[x] == n[j + (x - i)])
    decreases k - i
  {
    InsideStep(n, j, s);
    if i < x {
      WalkBegins(p, i, k, n, j, cs);
      InsideWalk(p, i + 1, k, n, j + 1, Follow(s), x, cs);
    }
  }

  lemma {:induction false} WalksFit(p: Bytes, i: nat, k: nat, n: Bytes, a: nat, s: State, y: nat, cs: CaseSensitivity)
    requires i <= k <= |p| && a <= |n| && ValidAt(n, a, s) && 0 < y < s.rem && a + y <= |n| && ValidAt(n, a + y, StateAt(s, y))
    requires Walk(p, i, k, n, a, cs).Some? && Walk(p, i, k, n, a + y, cs).Some?
    ensures BothFit(p, i, k, s.rem, y)
  {
    forall x | i <= x && x + y < k && x + y < i + s.rem
      ensures p[x] == QUESTION || p[x + y] == QUESTION || p[x] == p[x + y]
    {
      InsideWalk(p, i, k, n, a, s, x + y, cs);
      InsideWalk(p, i, k, n, a + y, StateAt(s, y), x, cs);
    }
  }

  /** Ends of two walks of a stretch that are inside different characters: then what follows does not go on
      there, if neither of the two things is wrong with the star before. */
  lemma NotInside(p: Bytes, sp: nat, po: nat, n: Bytes, sn: nat, s: State, b: nat, cs: CaseSensitivity)
    requires 0 < sp <= po < |p| && p[po] == STAR && StarFree(p, sp, po) && sn <= b <= |n| && ValidAt(n, sn, s) && ValidAt(n, b, StateAt(s, b - sn))
    requires !BrokenHere(p, sp - 1) && !LooseHere(p, sp - 1, s)
    requires Walk(p, sp, po, n, sn, cs).Some? && Walk(p, sp, po, n, b, cs).Some? && sn != b
    requires Stretch(p, sp, po, s).Some? && Stretch(p, sp, po, s) == Stretch(p, sp, po, StateAt(s, b - sn))
    ensures !Inside(p, po, Stretch(p, sp, po, s).value)
  {
    NextStarIs(p, sp, po);
    if b - sn < s.rem {
      WalksFit(p, sp, po, n, sn, s, b - sn, cs);
    }
  }

  /** The earlier star may be forgotten, if neither of the two things is wrong with it. */
  lemma ForgetStar(p: Bytes, sp: nat, po: nat, n: Bytes, sn: nat, s: State, no: nat, cs: CaseSensitivity)
    requires Behind(p, sp, po, n, sn, no, cs) && po < |p| && p[po] == STAR && ValidAt(n, sn, s)
    requires !BrokenHere(p, sp - 1) && !LooseHere(p, sp - 1, s) && Matches(p, sp - 1, n, sn, cs)
    ensures Matches(p, po, n, no, cs)
  {
    var b := StarLandsSomewhere(p, sp - 1, n, sn, cs);
    StateReached(n, sn, s, b);
    var t := StateAt(s, b - sn);
    WalkDecides(p, sp, po, n, b, cs);
    var end := Walk(p, sp, po, n, b, cs).value;
    OrderedStretch(p, sp, po, n, sn, s, b, t, cs);
    StretchWalks(p, sp, po, n, sn, s, cs);
    StretchWalks(p, sp, po, n, b, t, cs);
    var s', t' := Stretch(p, sp, po, s).value, Stretch(p, sp, po, t).value;
    var y := end;
    if t' == StateAt(s', end - no) {
      ReachedIf(n, no, s', end);
    } else {
      NotInside(p, sp, po, n, sn, s, b, cs);
      y := CatchUp(p, po, n, no, end, s', cs);
    }
    StarTakesIn(p, po, n, no, y, cs);
  }

  lemma {:induction false} NextStarIs(p: Bytes, i: nat, k: nat)
    requires i <= k < |p| && StarFree(p, i, k) && p[k] == STAR
    ensures NextStar(p, i) == k
    decreases k - i
  {
    if i < k {
      NextStarIs(p, i + 1, k);
    }
  }

  /** Faults behind a stretch are faults before it. */
  lemma {:induction false} FaultsThrough(p: Bytes, i: nat, k: nat, s: State)
    requires i <= k <= |p| && StarFree(p, i, k) && Stretch(p, i, k, s).Some?
    ensures BrokenFrom(p, i, s) <==> BrokenFrom(p, k, Stretch(p, i, k, s).value)
    ensures LooseFrom(p, i, s) <==> LooseFrom(p, k, Stretch(p, i, k, s).value)
    decreases k - i
  {
    if i < k {
      FaultsThrough(p, i + 1, k, TokenStep(s, p[i]).value);
    }
  }

  predicate Sound(p: Bytes, i: nat, s: State)
    requires i <= |p|
  {
    !BrokenFrom(p, i, s) && !LooseFrom(p, i, s)
  }

  /** The name is used up: there is no other way that needs less of the pattern. */
  lemma UsedUp(p: Bytes, sp: nat, po: nat, n: Bytes, sn: nat, s: State, cs: CaseSensitivity)
    requires Behind(p, sp, po, n, sn, |n|, cs) && ValidAt(n, sn, s) && Matches(p, sp - 1, n, sn, cs)
    ensures forall x :: po <= x < |p| ==> p[x] == STAR
  {
    var b := StarLandsSomewhere(p, sp - 1, n, sn, cs);
    StateReached(n, sn, s, b);
    WalkDecides(p, sp, po, n, b, cs);
    OrderedStretch(p, sp, po, n, sn, s, b, StateAt(s, b - sn), cs);
    OnlyStarsMatchNothing(p, po, n, cs);
  }

  lemma {:induction false} Find(p: Bytes, sp: nat, po: nat, n: Bytes, sn: nat, s: State, no: nat, cs: CaseSensitivity)
    requires Behind(p, sp, po, n, sn, no, cs) && ValidAt(n, sn, s) && Sound(p, sp - 1, s) && Matches(p, sp - 1, n, sn, cs)
    ensures Runs(p, Some(sp), po, n, sn, no, cs)
    decreases |n| - sn, |p| - po
  {
    if no == |n| {
      UsedUp(p, sp, po, n, sn, s, cs);
    } else if po < |p| && p[po] == QUESTION {
      WalkFurther(p, sp, po, n, sn, cs);
      Find(p, sp, po + 1, n, sn, s, NextCharacter(n, no), cs);
    } else if po < |p| && p[po] == STAR {
      ForgetStar(p, sp, po, n, sn, s, no, cs);
      StretchWalks(p, sp, po, n, sn, s, cs);
      FaultsThrough(p, sp, po, s);
      Find(p, po + 1, po + 1, n, no, Stretch(p, sp, po, s).value, no, cs);
    } else if po < |p| && EqualLiteral(p[po], n[no], cs) {
      WalkFurther(p, sp, po, n, sn, cs);
      Find(p, sp, po + 1, n, sn, s, no + 1, cs);
    } else {
      FallBack(p, sp, po, n, sn, no, cs);
      NextIsNext(n, sn, s);
      Find(p, sp, sp, n, NextCharacter(n, sn), Next(s), NextCharacter(n, sn), cs);
    }
  }

  lemma {:induction false} FindBegin(p: Bytes, po: nat, n: Bytes, no: nat, s: State, cs: CaseSensitivity)
    requires po <= |p| && no <= |n| && ValidAt(n, no, s) && Sound(p, po, s) && Matches(p, po, n, no, cs)
    ensures Runs(p, None, po, n, 0, no, cs)
    decreases |p| - po
  {
    if no == |n| {
      OnlyStarsMatchNothing(p, po, n, cs);
    } else if p[po] == STAR {
      Find(p, po + 1, po + 1, n, no, s, no, cs);
    } else {
      TokenWalks(p, po, n, no, s, cs);
      FindBegin(p, po + 1, n, if p[po] == QUESTION then NextCharacter(n, no) else no + 1, TokenStep(s, p[po]).value, cs);
    }
  }

  // ----- names for stretches of the pattern ----------------------------------------------------

  /** The bytes lead the decoder from `s` to `t`. */
  predicate Leads(s: State, bytes: Bytes, t: State)
    decreases |bytes|
  {
    if bytes == [] then s == t else Step(s, bytes[0]).Some? && Leads(Step(s, bytes[0]).value, bytes[1..], t)
  }

  lemma {:induction false} LeadsOn(s: State, a: Bytes, t: State, b: Bytes, u: State)
    requires Leads(s, a, t) && Leads(t, b, u)
    ensures Leads(s, a + b, u)
    decreases |a|
  {
    if a == [] {
      assert a + b == b;
    } else {
      LeadsOn(Step(s, a[0]).value, a[1..], t, b, u);
      assert (a + b)[1..] == a[1..] + b;
    }
  }

  /** The bytes stand in the name at `j`. */
  predicate At(n: Bytes, j: nat, bytes: Bytes) {
    j + |bytes| <= |n| && forall x :: j <= x < j + |bytes| ==> n[x] == bytes[x - j]
  }

  /** And end it. */
  predicate Ends(n: Bytes, j: nat, bytes: Bytes) {
    At(n, j, bytes) && j + |bytes| == |n|
  }

  lemma AtParts(n: Bytes, j: nat, a: Bytes, b: Bytes)
    requires At(n, j, a + b)
    ensures At(n, j, a) && At(n, j + |a|, b)
  {
  }

  lemma AtFirst(n: Bytes, j: nat, b: Byte, rest: Bytes)
    requires At(n, j, [b] + rest)
    ensures j < |n| && n[j] == b && At(n, j + 1, rest)
  {
    AtParts(n, j, [b], rest);
    assert n[j] == [b][0];
  }

  lemma {:induction false} LedIsValid(n: Bytes, j: nat, s: State, bytes: Bytes)
    requires Ends(n, j, bytes) && Leads(s, bytes, BOUNDARY)
    ensures ValidAt(n, j, s)
    decreases |bytes|
  {
    if bytes != [] {
      assert bytes == [bytes[0]] + bytes[1..];
      AtFirst(n, j, bytes[0], bytes[1..]);
      LedIsValid(n, j + 1, Step(s, n[j]).value, bytes[1..]);
    }
  }

  /** A byte that can come next, other than `avoid`. */
  function Filler(s: State, avoid: Byte): (b: Byte)
    requires s.rem > 0
    ensures s.low <= b <= s.high && b != avoid
  {
    if s.low == avoid then s.low + 1 else s.low
  }

  lemma OneByte(n: Bytes, j: nat)
    requires j < |n| && n[j] < 0xC0
    ensures NextCharacter(n, j) == j + 1
  {
  }

  /** What a token of the pattern can be matched by: itself, or some character, or a byte of one. */
  function Sample(s: State, token: Byte, avoid: Byte): Byte {
    if token != QUESTION then token else if s.rem > 0 then Filler(s, avoid) else 97
  }

  function Written(p: Bytes, i: nat, k: nat, s: State, avoid: Byte): (bytes: Bytes)
    requires i <= k <= |p| && Stretch(p, i, k, s).Some?
    ensures |bytes| == k - i
    decreases k - i
  {
    if i == k then [] else [Sample(s, p[i], avoid)] + Written(p, i + 1, k, TokenStep(s, p[i]).value, avoid)
  }

  lemma {:induction false} WrittenLeads(p: Bytes, i: nat, k: nat, s: State, avoid: Byte)
    requires i <= k <= |p| && Stretch(p, i, k, s).Some?
    ensures Leads(s, Written(p, i, k, s, avoid), Stretch(p, i, k, s).value)
    decreases k - i
  {
    if i < k {
      var rest := Written(p, i + 1, k, TokenStep(s, p[i]).value, avoid);
      WrittenLeads(p, i + 1, k, TokenStep(s, p[i]).value, avoid);
      assert ([Sample(s, p[i], avoid)] + rest)[1..] == rest;
    }
  }

  /** The stretch walks over what is written for it. */
  lemma {:induction false} WrittenWalks(p: Bytes, i: nat, k: nat, s: State, avoid: Byte, n: Bytes, j: nat, cs: CaseSensitivity)
    requires i <= k <= |p| && Stretch(p, i, k, s).Some? && StarFree(p, i, k) && At(n, j, Written(p, i, k, s, avoid))
    ensures j + (k - i) <= |n| && Walk(p, i, k, n, j, cs) == Some(j + (k - i))
    decreases k - i
  {
    if i < k {
      var t := TokenStep(s, p[i]).value;
      AtFirst(n, j, Sample(s, p[i], avoid), Written(p, i + 1, k, t, avoid));
      if p[i] == QUESTION {
        OneByte(n, j);
      }
      WrittenWalks(p, i + 1, k, t, avoid, n, j + 1, cs);
    }
  }

  /** The rest of the character, without the byte `avoid`. */
  function Remainder(s: State, avoid: Byte): (bytes: Bytes)
    ensures |bytes| == s.rem && avoid !in bytes
    decreases s.rem
  {
    if s.rem == 0 then [] else [Filler(s, avoid)] + Remainder(Follow(s), avoid)
  }

  lemma {:induction false} RemainderLeads(s: State, avoid: Byte)
    ensures Leads(s, Remainder(s, avoid), BOUNDARY)
    decreases s.rem
  {
    if s.rem > 0 {
      RemainderLeads(Follow(s), avoid);
      assert Remainder(s, avoid)[1..] == Remainder(Follow(s), avoid);
    }
  }

  /** For what is alive: the rest of a valid name that it matches. */
  function AliveName(p: Bytes, i: nat, s: State): Bytes
    requires i <= |p| && Alive(p, i, s)
    decreases |p| - i, s.rem
  {
    if i == |p| then []
    else if p[i] != STAR then [Sample(s, p[i], 0)] + AliveName(p, i + 1, TokenStep(s, p[i]).value)
    else if Alive(p, i + 1, s) then AliveName(p, i + 1, s)
    else [Filler(s, 0)] + AliveName(p, i, Follow(s))
  }

  lemma OneLeads(s: State, b: Byte, t: State, rest: Bytes)
    requires Step(s, b) == Some(t) && Leads(t, rest, BOUNDARY)
    ensures Leads(s, [b] + rest, BOUNDARY)
  {
    assert ([b] + rest)[1..] == rest;
  }

  lemma {:induction false} AliveLeads(p: Bytes, i: nat, s: State)
    requires i <= |p| && Alive(p, i, s)
    ensures Leads(s, AliveName(p, i, s), BOUNDARY)
    decreases |p| - i, s.rem
  {
    if i == |p| {
    } else if p[i] != STAR {
      var t := TokenStep(s, p[i]).value;
      AliveLeads(p, i + 1, t);
      OneLeads(s, Sample(s, p[i], 0), t, AliveName(p, i + 1, t));
    } else if Alive(p, i + 1, s) {
      AliveLeads(p, i + 1, s);
    } else {
      AliveLeads(p, i, Follow(s));
      OneLeads(s, Filler(s, 0), Follow(s), AliveName(p, i, Follow(s)));
    }
  }

  lemma {:induction false} AliveMatches(p: Bytes, i: nat, s: State, n: Bytes, j: nat, cs: CaseSensitivity)
    requires i <= |p| && Alive(p, i, s) && j <= |n| && Ends(n, j, AliveName(p, i, s))
    ensures Matches(p, i, n, j, cs)
    decreases |p| - i, s.rem
  {
    if i == |p| {
    } else if p[i] != STAR {
      var t := TokenStep(s, p[i]).value;
      AtFirst(n, j, Sample(s, p[i], 0), AliveName(p, i + 1, t));
      if p[i] == QUESTION {
        OneByte(n, j);
      }
      AliveMatches(p, i + 1, t, n, j + 1, cs);
    } else if Alive(p, i + 1, s) {
      AliveMatches(p, i + 1, s, n, j, cs);
    } else {
      AtFirst(n, j, Filler(s, 0), AliveName(p, i, Follow(s)));
      OneByte(n, j);
      AliveMatches(p, i, Follow(s), n, j + 1, cs);
    }
  }

  lemma {:induction false} InsideIsAlive(p: Bytes, i: nat, s: State)
    requires i <= |p| && Inside(p, i, s)
    ensures Alive(p, i, s)
    decreases |p| - i, s.rem
  {
    if p[i] == STAR && !Inside(p, i + 1, s) {
      InsideIsAlive(p, i, Follow(s));
    } else if p[i] == STAR || p[i] == QUESTION {
      InsideIsAlive(p, i + 1, if p[i] == STAR then s else Follow(s));
    }
  }

  /** The next literal. */
  function NextLiteral(p: Bytes, i: nat): (f: nat)
    requires i <= |p|
    ensures i <= f <= |p| && (f < |p| ==> !Wild(p[f]))
    decreases |p| - i
  {
    if i == |p| || !Wild(p[i]) then i else NextLiteral(p, i + 1)
  }

  lemma {:induction false} InsideHasLiteral(p: Bytes, i: nat, s: State)
    requires i <= |p| && Inside(p, i, s)
    ensures NextLiteral(p, i) < |p| && 0x80 <= p[NextLiteral(p, i)] <= 0xBF
    decreases |p| - i, s.rem
  {
    if p[i] == STAR && !Inside(p, i + 1, s) {
      InsideHasLiteral(p, i, Follow(s));
    } else if p[i] == STAR || p[i] == QUESTION {
      InsideHasLiteral(p, i + 1, if p[i] == STAR then s else Follow(s));
    }
  }

  /** A literal from within characters is not found from a position inside a character that goes on without
      it: no other character is ever entered. */
  lemma {:induction false} NeverEntered(p: Bytes, i: nat, n: Bytes, j: nat, s: State, c: Byte, cs: CaseSensitivity)
    requires i <= |p| && j <= |n| && ValidAt(n, j, s) && 0x80 <= c <= 0xBF
    requires NextLiteral(p, i) < |p| && p[NextLiteral(p, i)] == c
    requires forall x :: j <= x < j + s.rem && x < |n| ==> n[x] != c
    ensures !Matches(p, i, n, j, cs)
    decreases |p| - i, |n| - j
  {
    if j < |n| {
      NextIsNext(n, j, s);
      if p[i] == STAR {
        NeverEntered(p, i + 1, n, j, s, c, cs);
        NeverEntered(p, i, n, NextCharacter(n, j), Next(s), c, cs);
      } else if p[i] == QUESTION {
        NeverEntered(p, i + 1, n, NextCharacter(n, j), Next(s), c, cs);
      }
    } else if p[i] == STAR {
      NeverEntered(p, i + 1, n, j, s, c, cs);
    }
  }

  // ----- how the loop goes on ------------------------------------------------------------------

  /** Along a stretch that is matched. */
  lemma {:induction false} RunsAlong(p: Bytes, star: Option<nat>, i: nat, k: nat, n: Bytes, sn: nat, j: nat, cs: CaseSensitivity)
    requires i <= k <= |p| && sn <= j <= |n| && (star.Some? ==> star.value <= i) && StarFree(p, i, k) && Walk(p, i, k, n, j, cs).Some?
    ensures Runs(p, star, i, n, sn, j, cs) <==> Runs(p, star, k, n, sn, Walk(p, i, k, n, j, cs).value, cs)
    decreases k - i
  {
    if i < k {
      RunsAlong(p, star, i + 1, k, n, sn, if p[i] == QUESTION then NextCharacter(n, j) else j + 1, cs);
    }
  }

  /** The walk meets a byte that differs before the name is used up. */
  predicate Stuck(p: Bytes, i: nat, k: nat, n: Bytes, j: nat, cs: CaseSensitivity)
    requires i <= k <= |p| && j <= |n|
    decreases k - i
  {
    i < k && j < |n| &&
    if p[i] == QUESTION then Stuck(p, i + 1, k, n, NextCharacter(n, j), cs)
    else EqualLiteral(p[i], n[j], cs) ==> Stuck(p, i + 1, k, n, j + 1, cs)
  }

  lemma {:induction false} StuckFallsBack(p: Bytes, sp: nat, i: nat, k: nat, n: Bytes, sn: nat, j: nat, cs: CaseSensitivity)
    requires sp <= i <= k <= |p| && sn <= j <= |n| && StarFree(p, i, k) && Stuck(p, i, k, n, j, cs)
    ensures sn < |n| && (Runs(p, Some(sp), i, n, sn, j, cs) <==> Runs(p, Some(sp), sp, n, NextCharacter(n, sn), NextCharacter(n, sn), cs))
    decreases k - i
  {
    if p[i] == QUESTION {
      StuckFallsBack(p, sp, i + 1, k, n, sn, NextCharacter(n, j), cs);
    } else if EqualLiteral(p[i], n[j], cs) {
      StuckFallsBack(p, sp, i + 1, k, n, sn, j + 1, cs);
    }
  }

  /** If the stretch can be walked from a later position, an earlier one does not use up the name. */
  lemma {:induction false} WalksOrStuck(p: Bytes, i: nat, k: nat, n: Bytes, a: nat, s: State, b: nat, t: State, cs: CaseSensitivity)
    requires i <= k <= |p| && a <= |n| && b <= |n| && ValidAt(n, a, s) && ValidAt(n, b, t) && Ordered(a, s, b, t) && StarFree(p, i, k)
    requires Walk(p, i, k, n, b, cs).Some?
    ensures Walk(p, i, k, n, a, cs).Some? || Stuck(p, i, k, n, a, cs)
    decreases k - i
  {
    if i < k {
      WalkBegins(p, i, k, n, b, cs);
      if p[i] == QUESTION || EqualLiteral(p[i], n[a], cs) {
        var a', s', b', t' := OrderedToken(p, i, k, n, a, s, b, t, cs);
        WalksOrStuck(p, i + 1, k, n, a', s', b', t', cs);
      }
    }
  }

  /** A star whose stretch cannot begin in the state it is in takes in one byte more. */
  lemma StarMovesOn(p: Bytes, i: nat, k: nat, n: Bytes, j: nat, s: State, cs: CaseSensitivity)
    requires i < k < |p| && p[i] == STAR && k == NextStar(p, i + 1) && j < |n| && ValidAt(n, j, s) && s.rem > 0
    requires Stretch(p, i + 1, k, s) == None && Matches(p, i, n, j + 1, cs)
    ensures NextCharacter(n, j) == j + 1
    ensures Runs(p, Some(i + 1), i + 1, n, j, j, cs) <==> Runs(p, Some(i + 1), i + 1, n, j + 1, j + 1, cs)
  {
    NextIsNext(n, j, s);
    var b := StarLandsSomewhere(p, i, n, j + 1, cs);
    StateReached(n, j + 1, Follow(s), b);
    WalkDecides(p, i + 1, k, n, b, cs);
    WalksOrStuck(p, i + 1, k, n, j, s, b, StateAt(Follow(s), b - (j + 1)), cs);
    if Walk(p, i + 1, k, n, j, cs).Some? {
      StretchWalks(p, i + 1, k, n, j, s, cs);
      assert false;
    }
    StuckFallsBack(p, i + 1, i + 1, k, n, j, j, cs);
  }

  // ----- missed where something is broken ------------------------------------------------------

  /** A fault is met at a star that has another one after it. */
  lemma {:induction false} BrokenAhead(p: Bytes, i: nat, s: State)
    requires i <= |p| && BrokenFrom(p, i, s)
    ensures var k := NextStar(p, i); k < |p| && Stretch(p, i, k, s).Some? && BrokenFrom(p, k, Stretch(p, i, k, s).value)
    decreases |p| - i
  {
    if p[i] != STAR {
      BrokenAhead(p, i + 1, TokenStep(s, p[i]).value);
    }
  }

  lemma {:induction false} BrokenHasNext(p: Bytes, i: nat, s: State)
    requires i < |p| && p[i] == STAR && BrokenFrom(p, i, s)
    ensures NextStar(p, i + 1) < |p|
    decreases s.rem
  {
    if BrokenFrom(p, i + 1, s) {
      BrokenAhead(p, i + 1, s);
    } else if !BrokenHere(p, i) {
      BrokenHasNext(p, i, Follow(s));
    }
  }

  /** The state `t` is that of the same character, or of a boundary, later on. */
  predicate Later(s: State, t: State) {
    t == s || (t.rem < s.rem && t == Within(t.rem))
  }

  lemma {:induction false} LaterStretch(p: Bytes, i: nat, k: nat, s: State, t: State)
    requires i <= k <= |p| && Later(s, t) && Stretch(p, i, k, s).Some? && Stretch(p, i, k, t).Some?
    ensures Later(Stretch(p, i, k, s).value, Stretch(p, i, k, t).value)
    ensures t == BOUNDARY && Stretch(p, i, k, t) != Some(BOUNDARY) ==> Stretch(p, i, k, s) == Stretch(p, i, k, t)
    decreases k - i
  {
    if i < k {
      LaterStretch(p, i + 1, k, TokenStep(s, p[i]).value, TokenStep(t, p[i]).value);
    }
  }

  lemma {:induction false} StarWaits(p: Bytes, k: nat, s: State, t: State)
    requires k < |p| && p[k] == STAR && Later(s, t) && BrokenFrom(p, k, t)
    ensures BrokenFrom(p, k, s)
    decreases s.rem
  {
    if s != t {
      StarWaits(p, k, Follow(s), t);
    }
  }

  /** If the stretch can begin at once, beginning it later leads to no other faults. */
  lemma {:induction false} BrokenAtOnce(p: Bytes, i: nat, k: nat, s: State, t: State)
    requires i < k < |p| && p[i] == STAR && k == NextStar(p, i + 1) && !BrokenHere(p, i)
    requires Later(s, t) && BrokenFrom(p, i, t) && Stretch(p, i + 1, k, s).Some?
    ensures BrokenFrom(p, k, Stretch(p, i + 1, k, s).value)
    decreases t.rem
  {
    if BrokenFrom(p, i + 1, t) {
      BrokenAhead(p, i + 1, t);
      LaterStretch(p, i + 1, k, s, t);
      StarWaits(p, k, Stretch(p, i + 1, k, s).value, Stretch(p, i + 1, k, t).value);
    } else {
      BrokenAtOnce(p, i, k, s, Follow(t));
    }
  }

  /** What comes of a star in the name: the rest matches, and the loop says it does not. */
  predicate Missed(p: Bytes, i: nat, n: Bytes, j: nat, cs: CaseSensitivity)
    requires i < |p| && j <= |n|
  {
    Matches(p, i, n, j, cs) && !Runs(p, Some(i + 1), i + 1, n, j, j, cs)
  }

  /** Walking over a stretch from one star to the next, the loop misses there what it misses here. */
  lemma MissedThrough(p: Bytes, i: nat, k: nat, n: Bytes, j: nat, e: nat, cs: CaseSensitivity)
    requires i < k < |p| && p[i] == STAR && p[k] == STAR && StarFree(p, i + 1, k) && j <= |n| && e <= |n|
    requires Walk(p, i + 1, k, n, j, cs) == Some(e) && Missed(p, k, n, e, cs)
    ensures Missed(p, i, n, j, cs)
  {
    WalkDecides(p, i + 1, k, n, j, cs);
    RunsAlong(p, Some(i + 1), i + 1, k, n, j, j, cs);
  }

  /** The loop stops at a copy of the stretch whose character goes on in another way. */
  lemma FirstDoesNot(p: Bytes, i: nat, k: nat, n: Bytes, j: nat, s: State, c: Byte, cs: CaseSensitivity)
    requires i < k < |p| && p[k] == STAR && StarFree(p, i + 1, k) && Stretch(p, i + 1, k, s).Some?
    requires j <= |n| && ValidAt(n, j, s) && At(n, j, Written(p, i + 1, k, s, c))
    requires At(n, j + (k - i - 1), Remainder(Stretch(p, i + 1, k, s).value, c))
    requires NextLiteral(p, k) < |p| && c == p[NextLiteral(p, k)] && 0x80 <= c <= 0xBF
    ensures !Runs(p, Some(i + 1), i + 1, n, j, j, cs)
  {
    var e := j + (k - i - 1);
    WrittenWalks(p, i + 1, k, s, c, n, j, cs);
    StretchWalks(p, i + 1, k, n, j, s, cs);
    RunsAlong(p, Some(i + 1), i + 1, k, n, j, j, cs);
    NeverEntered(p, k, n, e, Stretch(p, i + 1, k, s).value, c, cs);
    if Runs(p, Some(k + 1), k + 1, n, e, e, cs) {
      RunsSound(p, k + 1, k + 1, n, e, e, cs);
    }
    OnlyStarsMatchNothing(p, k, n, cs);
  }

  /** A later copy fits, if what follows it does. */
  lemma SecondFits(p: Bytes, i: nat, k: nat, n: Bytes, j: nat, s: State, q: nat, c: Byte, cs: CaseSensitivity)
    requires i < k < |p| && p[i] == STAR && StarFree(p, i + 1, k) && Stretch(p, i + 1, k, BOUNDARY).Some?
    requires j <= q <= q + (k - i - 1) <= |n| && ValidAt(n, j, s) && ValidAt(n, q, BOUNDARY)
    requires At(n, q, Written(p, i + 1, k, BOUNDARY, c)) && Matches(p, k, n, q + (k - i - 1), cs)
    ensures Matches(p, i, n, j, cs)
  {
    WrittenWalks(p, i + 1, k, BOUNDARY, c, n, q, cs);
    WalkDecides(p, i + 1, k, n, q, cs);
    BoundaryIsReached(n, j, s, q);
    StarTakesIn(p, i, n, j, q, cs);
  }

  /** Two copies of the broken stretch. The character that the first ends in goes on in another way than what
      follows the next star wants. */
  function TwoCopies(p: Bytes, i: nat, s: State): Bytes
    requires i < |p| && BrokenHere(p, i) && Stretch(p, i + 1, NextStar(p, i + 1), s).Some?
  {
    var k := NextStar(p, i + 1);
    var inside := Stretch(p, i + 1, k, BOUNDARY).value;
    InsideHasLiteral(p, k, inside);
    InsideIsAlive(p, k, inside);
    var c := p[NextLiteral(p, k)];
    Written(p, i + 1, k, s, c) + (Remainder(inside, c) + (Written(p, i + 1, k, BOUNDARY, c) + AliveName(p, k, inside)))
  }

  lemma TwoCopiesLead(p: Bytes, i: nat, s: State)
    requires i < |p| && BrokenHere(p, i) && Stretch(p, i + 1, NextStar(p, i + 1), s).Some?
    ensures Leads(s, TwoCopies(p, i, s), BOUNDARY)
  {
    var k := NextStar(p, i + 1);
    var inside := Stretch(p, i + 1, k, BOUNDARY).value;
    InsideHasLiteral(p, k, inside);
    InsideIsAlive(p, k, inside);
    LaterStretch(p, i + 1, k, s, BOUNDARY);
    var c := p[NextLiteral(p, k)];
    WrittenLeads(p, i + 1, k, s, c);
    RemainderLeads(inside, c);
    WrittenLeads(p, i + 1, k, BOUNDARY, c);
    AliveLeads(p, k, inside);
    LeadsOn(BOUNDARY, Written(p, i + 1, k, BOUNDARY, c), inside, AliveName(p, k, inside), BOUNDARY);
    LeadsOn(inside, Remainder(inside, c), BOUNDARY, Written(p, i + 1, k, BOUNDARY, c) + AliveName(p, k, inside), BOUNDARY);
    LeadsOn(s, Written(p, i + 1, k, s, c), inside, Remainder(inside, c) + (Written(p, i + 1, k, BOUNDARY, c) + AliveName(p, k, inside)), BOUNDARY);
  }

  lemma Pieces(n: Bytes, j: nat, first: Bytes, rest: Bytes, second: Bytes, tail: Bytes)
    requires Ends(n, j, first + (rest + (second + tail)))
    ensures At(n, j, first) && At(n, j + |first|, rest) && At(n, j + |first| + |rest|, second)
    ensures Ends(n, j + |first| + |rest| + |second|, tail)
  {
    AtParts(n, j, first, rest + (second + tail));
    AtParts(n, j + |first|, rest, second + tail);
    AtParts(n, j + |first| + |rest|, second, tail);
  }

  lemma CopiesInPlace(p: Bytes, i: nat, s: State, n: Bytes, j: nat, k: nat, inside: State, c: Byte)
    requires i < |p| && BrokenHere(p, i) && k == NextStar(p, i + 1) && Stretch(p, i + 1, k, s).Some?
    requires Stretch(p, i + 1, k, BOUNDARY) == Some(inside) && Alive(p, k, inside) && NextLiteral(p, k) < |p| && c == p[NextLiteral(p, k)]
    requires 0x80 <= c <= 0xBF && j <= |n| && Ends(n, j, TwoCopies(p, i, s)) && Stretch(p, i + 1, k, s) == Some(inside)
    ensures var e := j + (k - i - 1); var q := e + inside.rem; var r := q + (k - i - 1);
            && At(n, j, Written(p, i + 1, k, s, c)) && At(n, e, Remainder(inside, c)) && At(n, q, Written(p, i + 1, k, BOUNDARY, c))
            && Ends(n, r, AliveName(p, k, inside))
  {
    Pieces(n, j, Written(p, i + 1, k, s, c), Remainder(inside, c), Written(p, i + 1, k, BOUNDARY, c), AliveName(p, k, inside));
  }

  /** The loop stops in the first copy; only the second fits. */
  lemma TwoCopiesMissed(p: Bytes, i: nat, s: State, n: Bytes, j: nat, cs: CaseSensitivity)
    requires i < |p| && p[i] == STAR && BrokenHere(p, i) && Stretch(p, i + 1, NextStar(p, i + 1), s).Some?
    requires j <= |n| && Ends(n, j, TwoCopies(p, i, s)) && ValidAt(n, j, s)
    ensures Missed(p, i, n, j, cs)
  {
    var k := NextStar(p, i + 1);
    var inside := Stretch(p, i + 1, k, BOUNDARY).value;
    InsideHasLiteral(p, k, inside);
    InsideIsAlive(p, k, inside);
    LaterStretch(p, i + 1, k, s, BOUNDARY);
    CopiesInPlace(p, i, s, n, j, k, inside, p[NextLiteral(p, k)]);
    CopiesMissed(p, i, k, s, inside, n, j, p[NextLiteral(p, k)], cs);
  }

  lemma CopiesMissed(p: Bytes, i: nat, k: nat, s: State, inside: State, n: Bytes, j: nat, c: Byte, cs: CaseSensitivity)
    requires i < k < |p| && p[i] == STAR && p[k] == STAR && StarFree(p, i + 1, k)
    requires Stretch(p, i + 1, k, s) == Stretch(p, i + 1, k, BOUNDARY) == Some(inside) && Alive(p, k, inside)
    requires NextLiteral(p, k) < |p| && c == p[NextLiteral(p, k)] && 0x80 <= c <= 0xBF && j <= |n| && ValidAt(n, j, s)
    requires var e := j + (k - i - 1); var q := e + inside.rem; var r := q + (k - i - 1);
             && At(n, j, Written(p, i + 1, k, s, c)) && At(n, e, Remainder(inside, c)) && At(n, q, Written(p, i + 1, k, BOUNDARY, c))
             && Ends(n, r, AliveName(p, k, inside))
    ensures Missed(p, i, n, j, cs)
  {
    FirstDoesNot(p, i, k, n, j, s, c, cs);
    CopiesMatch(p, i, k, s, inside, n, j, c, cs);
  }

  lemma CopiesMatch(p: Bytes, i: nat, k: nat, s: State, inside: State, n: Bytes, j: nat, c: Byte, cs: CaseSensitivity)
    requires i < k < |p| && p[i] == STAR && StarFree(p, i + 1, k)
    requires Stretch(p, i + 1, k, s) == Stretch(p, i + 1, k, BOUNDARY) == Some(inside) && Alive(p, k, inside)
    requires j <= |n| && ValidAt(n, j, s)
    requires var e := j + (k - i - 1); var q := e + inside.rem; var r := q + (k - i - 1);
             && At(n, j, Written(p, i + 1, k, s, c)) && At(n, q, Written(p, i + 1, k, BOUNDARY, c)) && Ends(n, r, AliveName(p, k, inside))
    ensures Matches(p, i, n, j, cs)
  {
    var e := j + (k - i - 1);
    AliveMatches(p, k, inside, n, e + inside.rem + (k - i - 1), cs);
    BoundaryThere(p, i, k, n, j, s, c, cs);
    SecondFits(p, i, k, n, j, s, e + inside.rem, c, cs);
  }

  lemma BoundaryThere(p: Bytes, i: nat, k: nat, n: Bytes, j: nat, s: State, c: Byte, cs: CaseSensitivity)
    requires i < k <= |p| && StarFree(p, i + 1, k) && Stretch(p, i + 1, k, s).Some?
    requires j <= |n| && ValidAt(n, j, s) && At(n, j, Written(p, i + 1, k, s, c))
    ensures var q := j + (k - i - 1) + Stretch(p, i + 1, k, s).value.rem; q <= |n| && ValidAt(n, q, BOUNDARY)
  {
    WrittenWalks(p, i + 1, k, s, c, n, j, cs);
    StretchWalks(p, i + 1, k, n, j, s, cs);
    RestOfCharacter(n, j + (k - i - 1), Stretch(p, i + 1, k, s).value);
  }

  /** What a fault ahead means at a star. */
  lemma BrokenOnward(p: Bytes, i: nat, s: State)
    requires i < |p| && p[i] == STAR && BrokenFrom(p, i, s)
    ensures var k := NextStar(p, i + 1);
            && k < |p|
            && (Stretch(p, i + 1, k, s) == None ==> s.rem > 0 && BrokenFrom(p, i, Follow(s)))
            && (Stretch(p, i + 1, k, s).Some? && !BrokenHere(p, i) ==> BrokenFrom(p, k, Stretch(p, i + 1, k, s).value))
  {
    BrokenHasNext(p, i, s);
    var k := NextStar(p, i + 1);
    if Stretch(p, i + 1, k, s) == None {
      if BrokenFrom(p, i + 1, s) {
        BrokenAhead(p, i + 1, s);
      }
    } else if !BrokenHere(p, i) {
      BrokenAtOnce(p, i, k, s, s);
    }
  }

  /** A rest of a valid name that the loop misses from the star on. */
  function MissedName(p: Bytes, i: nat, s: State): Bytes
    requires i < |p| && p[i] == STAR && BrokenFrom(p, i, s)
    decreases |p| - i, s.rem
  {
    BrokenOnward(p, i, s);
    var k := NextStar(p, i + 1);
    match Stretch(p, i + 1, k, s)
    case None => [Filler(s, 0)] + MissedName(p, i, Follow(s))
    case Some(t) => if BrokenHere(p, i) then TwoCopies(p, i, s) else Written(p, i + 1, k, s, 0) + MissedName(p, k, t)
  }

  lemma {:induction false} MissedLeads(p: Bytes, i: nat, s: State)
    requires i < |p| && p[i] == STAR && BrokenFrom(p, i, s)
    ensures Leads(s, MissedName(p, i, s), BOUNDARY)
    decreases |p| - i, s.rem
  {
    BrokenOnward(p, i, s);
    var k := NextStar(p, i + 1);
    if Stretch(p, i + 1, k, s) == None {
      MissedLeads(p, i, Follow(s));
      OneLeads(s, Filler(s, 0), Follow(s), MissedName(p, i, Follow(s)));
    } else if BrokenHere(p, i) {
      TwoCopiesLead(p, i, s);
    } else {
      var t := Stretch(p, i + 1, k, s).value;
      MissedLeads(p, k, t);
      WrittenLeads(p, i + 1, k, s, 0);
      LeadsOn(s, Written(p, i + 1, k, s, 0), t, MissedName(p, k, t), BOUNDARY);
    }
  }

  /** It is missed, whatever name led there. */
  lemma {:induction false} MissedIsMissed(p: Bytes, i: nat, s: State, n: Bytes, j: nat, cs: CaseSensitivity)
    requires i < |p| && p[i] == STAR && BrokenFrom(p, i, s) && j <= |n| && Ends(n, j, MissedName(p, i, s)) && ValidAt(n, j, s)
    ensures Missed(p, i, n, j, cs)
    decreases |p| - i, s.rem
  {
    BrokenOnward(p, i, s);
    var k := NextStar(p, i + 1);
    if Stretch(p, i + 1, k, s) == None {
      AtFirst(n, j, Filler(s, 0), MissedName(p, i, Follow(s)));
      MissedIsMissed(p, i, Follow(s), n, j + 1, cs);
      StarMovesOn(p, i, k, n, j, s, cs);
    } else if BrokenHere(p, i) {
      TwoCopiesMissed(p, i, s, n, j, cs);
    } else {
      var t := Stretch(p, i + 1, k, s).value;
      AtParts(n, j, Written(p, i + 1, k, s, 0), MissedName(p, k, t));
      WrittenWalks(p, i + 1, k, s, 0, n, j, cs);
      StretchWalks(p, i + 1, k, n, j, s, cs);
      MissedIsMissed(p, k, t, n, j + (k - i - 1), cs);
      MissedThrough(p, i, k, n, j, j + (k - i - 1), cs);
    }
  }

  // ----- the theorem ---------------------------------------------------------------------------

  lemma {:induction false} TailsAreValid(n: Bytes, j: nat, s: State)
    requires s.rem > 0 && j + s.rem <= |n| && s.low <= n[j] <= s.high
    requires (forall x :: j <= x < j + s.rem ==> Utf8.IsTail(n[x])) && ValidAt(n, j + s.rem, BOUNDARY)
    ensures ValidAt(n, j, s)
    decreases s.rem
  {
    if s.rem > 1 {
      TailsAreValid(n, j + 1, Follow(s));
    }
  }

  /** The decoder accepts what the validator accepts. */
  lemma {:induction false} ValidIsValidAt(n: Bytes, j: nat)
    requires j <= |n|
    ensures Utf8.ValidFrom(n, j) <==> ValidAt(n, j, BOUNDARY)
    decreases |n| - j
  {
    if j < |n| && Utf8.Announced(n[j]) > 0 {
      var start := Opened(n[j]);
      if j + Utf8.Announced(n[j]) <= |n| {
        ValidIsValidAt(n, j + 1 + start.rem);
      }
      if Utf8.ValidFrom(n, j) && start.rem > 0 {
        TailsAreValid(n, j + 1, start);
      }
      if ValidAt(n, j, BOUNDARY) {
        RestOfCharacter(n, j + 1, start);
      }
    }
  }

  /** Where nothing is wrong with the pattern, the matcher is right about every valid name. */
  lemma SoundIsExact(p: Bytes, n: Bytes, cs: CaseSensitivity)
    requires Utf8.WellFormed(n) && !Broken(p) && !Loose(p)
    ensures Run(p, n, cs) <==> Match(p, n, cs)
  {
    Utf8.ValidIffWellFormed(n);
    ValidIsValidAt(n, 0);
    RunMeaning(p, n, cs);
    if Match(p, n, cs) {
      FindBegin(p, 0, n, 0, BOUNDARY, cs);
    }
  }

  /** Where it is broken, some valid name that matches is missed. */
  lemma BrokenMisses(p: Bytes, cs: CaseSensitivity) returns (n: Bytes)
    requires Broken(p)
    ensures Utf8.WellFormed(n) && Match(p, n, cs) && !Run(p, n, cs)
  {
    BrokenAhead(p, 0, BOUNDARY);
    var k := NextStar(p, 0);
    var s := Stretch(p, 0, k, BOUNDARY).value;
    var first := Written(p, 0, k, BOUNDARY, 0);
    n := first + MissedName(p, k, s);
    WrittenLeads(p, 0, k, BOUNDARY, 0);
    MissedLeads(p, k, s);
    LeadsOn(BOUNDARY, first, s, MissedName(p, k, s), BOUNDARY);
    LedIsValid(n, 0, BOUNDARY, n);
    ValidIsValidAt(n, 0);
    Utf8.ValidIffWellFormed(n);
    ContinuedMisses(p, k, s, n, cs);
  }

  /** A name that begins with the stretch before the first star and goes on as the star misses it. */
  lemma ContinuedMisses(p: Bytes, k: nat, s: State, n: Bytes, cs: CaseSensitivity)
    requires k == NextStar(p, 0) < |p| && Stretch(p, 0, k, BOUNDARY) == Some(s) && BrokenFrom(p, k, s) && ValidAt(n, 0, BOUNDARY)
    requires n == Written(p, 0, k, BOUNDARY, 0) + MissedName(p, k, s)
    ensures Match(p, n, cs) && !Run(p, n, cs)
  {
    AtParts(n, 0, Written(p, 0, k, BOUNDARY, 0), MissedName(p, k, s));
    WrittenWalks(p, 0, k, BOUNDARY, 0, n, 0, cs);
    StretchWalks(p, 0, k, n, 0, BOUNDARY, cs);
    MissedIsMissed(p, k, s, n, k, cs);
    WalkDecides(p, 0, k, n, 0, cs);
    RunsAlong(p, None, 0, k, n, 0, 0, cs);
  }

  // ----- where looseness matters ---------------------------------------------------------------

  /** The pattern begins, before its first star, with a stretch that ends inside a character, and what follows
      the star goes on there. */
  predicate Pinned(p: Bytes) {
    var k := NextStar(p, 0);
    k < |p| && Stretch(p, 0, k, BOUNDARY).Some? && Inside(p, k, Stretch(p, 0, k, BOUNDARY).value)
  }

  lemma {:induction false} AliveThrough(p: Bytes, i: nat, k: nat, s: State)
    requires i <= k <= |p| && StarFree(p, i, k) && Stretch(p, i, k, s).Some? && Alive(p, k, Stretch(p, i, k, s).value)
    ensures Alive(p, i, s)
    decreases k - i
  {
    if i < k {
      AliveThrough(p, i + 1, k, TokenStep(s, p[i]).value);
    }
  }

  lemma {:induction false} LooseIsAlive(p: Bytes, i: nat, s: State)
    requires i <= |p| && LooseFrom(p, i, s)
    ensures Alive(p, i, s)
    decreases |p| - i, s.rem
  {
    if p[i] != STAR {
      LooseIsAlive(p, i + 1, TokenStep(s, p[i]).value);
    } else if LooseHere(p, i, s) {
      var k := NextStar(p, i + 1);
      InsideIsAlive(p, k, Stretch(p, i + 1, k, s).value);
      AliveThrough(p, i + 1, k, s);
    } else if LooseFrom(p, i + 1, s) {
      LooseIsAlive(p, i + 1, s);
    } else {
      LooseIsAlive(p, i, Follow(s));
    }
  }

  /** A stretch that does not go on inside the character, but ends inside a later one, can as well begin at
      a boundary. */
  lemma {:induction false} BeginsAtBoundary(p: Bytes, i: nat, k: nat, s: State)
    requires i <= k <= |p| && StarFree(p, i, k) && Stretch(p, i, k, s).Some? && Inside(p, k, Stretch(p, i, k, s).value) && !Inside(p, i, s)
    ensures Stretch(p, i, k, BOUNDARY) == Stretch(p, i, k, s)
    decreases k - i
  {
    if i < k && s.rem > 0 {
      var t := TokenStep(s, p[i]).value;
      if p[i] == QUESTION {
        BeginsAtBoundary(p, i + 1, k, t);
      } else {
        InsideIsAlive(p, k, Stretch(p, i, k, s).value);
        AliveThrough(p, i + 1, k, t);
        assert false;
      }
    }
  }

  /** If nothing goes on inside the character, what is loose is so from its end on, or broken. */
  lemma {:induction false} LooseFromBoundary(p: Bytes, i: nat, s: State)
    requires i <= |p| && LooseFrom(p, i, s) && !Inside(p, i, s)
    ensures LooseFrom(p, i, BOUNDARY) || BrokenFrom(p, i, BOUNDARY)
    decreases |p| - i, s.rem
  {
    if s.rem > 0 {
      if p[i] == QUESTION {
        LooseFromBoundary(p, i + 1, Follow(s));
      } else if p[i] != STAR {
        LooseIsAlive(p, i + 1, Step(s, p[i]).value);
        assert false;
      } else if LooseHere(p, i, s) {
        BeginsAtBoundary(p, i + 1, NextStar(p, i + 1), s);
      } else if LooseFrom(p, i + 1, s) {
        LooseFromBoundary(p, i + 1, s);
      } else {
        LooseFromBoundary(p, i, Follow(s));
      }
    }
  }

  lemma {:induction false} LooseAhead(p: Bytes, i: nat, s: State)
    requires i <= |p| && LooseFrom(p, i, s)
    ensures var k := NextStar(p, i); k < |p| && Stretch(p, i, k, s).Some? && LooseFrom(p, k, Stretch(p, i, k, s).value)
    decreases |p| - i
  {
    if p[i] != STAR {
      LooseAhead(p, i + 1, TokenStep(s, p[i]).value);
    }
  }

  /** From a star between characters on, what is loose is broken. */
  lemma {:induction false} LooseIsBroken(p: Bytes, i: nat)
    requires i < |p| && p[i] == STAR && LooseFrom(p, i, BOUNDARY)
    ensures BrokenFrom(p, i, BOUNDARY)
    decreases |p| - i
  {
    LooseAhead(p, i + 1, BOUNDARY);
    var k := NextStar(p, i + 1);
    var t := Stretch(p, i + 1, k, BOUNDARY).value;
    if !Inside(p, k, t) {
      LooseFromBoundary(p, k, t);
      if !BrokenFrom(p, k, BOUNDARY) {
        LooseIsBroken(p, k);
      }
      WaitsForBoundary(p, k, t);
      FaultsThrough(p, i + 1, k, BOUNDARY);
    }
  }

  lemma {:induction false} WaitsForBoundary(p: Bytes, k: nat, t: State)
    requires k < |p| && p[k] == STAR && BrokenFrom(p, k, BOUNDARY)
    ensures BrokenFrom(p, k, t)
  {
    StarWaits(p, k, t, BOUNDARY);
  }

  /** So only a pattern whose beginning ties it to the inside of a character can be loose without being broken. */
  lemma LooseIsPinned(p: Bytes)
    requires Loose(p) && !Broken(p)
    ensures Pinned(p)
  {
    LooseAhead(p, 0, BOUNDARY);
    var k := NextStar(p, 0);
    var t := Stretch(p, 0, k, BOUNDARY).value;
    if !Inside(p, k, t) {
      LooseFromBoundary(p, k, t);
      if !BrokenFrom(p, k, BOUNDARY) {
        LooseIsBroken(p, k);
      }
      WaitsForBoundary(p, k, t);
      FaultsThrough(p, 0, k, BOUNDARY);
    }
  }

  /** Exactly the patterns that are not broken are matched without a miss; all patterns, but for those that
      are pinned and loose as well. */
  lemma ExactIff(p: Bytes, cs: CaseSensitivity)
    requires !Pinned(p) || !Loose(p)
    ensures (forall n: Bytes :: Utf8.WellFormed(n) ==> (Run(p, n, cs) <==> Match(p, n, cs))) <==> !Broken(p)
  {
    if Broken(p) {
      var n := BrokenMisses(p, cs);
      assert Utf8.WellFormed(n) && !(Run(p, n, cs) <==> Match(p, n, cs));
    } else {
      if Loose(p) {
        LooseIsPinned(p);
        assert false;
      }
      forall n: Bytes | Utf8.WellFormed(n)
        ensures Run(p, n, cs) <==> Match(p, n, cs)
      {
        SoundIsExact(p, n, cs);
      }
    }
  }

  /** Such a name: the second star begins inside the first of the two characters, and steps over where the
      other one would have to go on. */
  lemma MissExample(cs: CaseSensitivity)
    ensures var p, n := [STAR, 0xC3, STAR, 0xA9], [0xC3, 0xA8, 0xC3, 0xA9]; Match(p, n, cs) && !Run(p, n, cs)
  {
    var p: Bytes, n: Bytes := [STAR, 0xC3, STAR, 0xA9], [0xC3, 0xA8, 0xC3, 0xA9];
    assert Matches(p, 4, n, 4, cs) && Matches(p, 3, n, 3, cs) && Matches(p, 2, n, 3, cs) && Matches(p, 1, n, 2, cs);
    assert Matches(p, 0, n, 2, cs) && Matches(p, 0, n, 0, cs);
    assert !Runs(p, Some(3), 3, n, 4, 4, cs) && !Runs(p, Some(3), 3, n, 2, 2, cs) && !Runs(p, Some(3), 3, n, 1, 1, cs);
    assert !Runs(p, Some(1), 2, n, 0, 1, cs) && !Runs(p, Some(1), 1, n, 0, 0, cs);
  }

  /** A pattern that is not broken may miss a name, if it is loose. */
  lemma LooseExample(cs: CaseSensitivity)
    ensures var p, n := [0xE3, STAR, 0x82, QUESTION, 0xC3, STAR, 0x81], [0xE3, 0x82, 0x82, 0xC3, 0x80, 0xC3, 0x81];
            !Broken(p) && Match(p, n, cs) && !Run(p, n, cs)
  {
    var p: Bytes := [0xE3, STAR, 0x82, QUESTION, 0xC3, STAR, 0x81];
    var n: Bytes := [0xE3, 0x82, 0x82, 0xC3, 0x80, 0xC3, 0x81];
    assert Matches(p, 7, n, 7, cs) && Matches(p, 6, n, 6, cs) && Matches(p, 5, n, 6, cs) && Matches(p, 4, n, 5, cs);
    assert Matches(p, 3, n, 3, cs) && Matches(p, 2, n, 2, cs) && Matches(p, 1, n, 2, cs) && Matches(p, 1, n, 1, cs);
    assert Matches(p, 0, n, 0, cs);
    assert !Runs(p, Some(6), 6, n, 7, 7, cs) && !Runs(p, Some(6), 6, n, 5, 5, cs) && !Runs(p, Some(6), 6, n, 4, 4, cs);
    assert !Runs(p, Some(2), 5, n, 1, 4, cs) && !Runs(p, Some(2), 4, n, 1, 3, cs) && !Runs(p, Some(2), 3, n, 1, 2, cs);
    assert !Runs(p, Some(2), 2, n, 1, 1, cs) && !Runs(p, None, 1, n, 0, 1, cs);
    NotBrokenExample(p);
  }

  lemma NotBrokenExample(p: Bytes)
    requires p == [0xE3, STAR, 0x82, QUESTION, 0xC3, STAR, 0x81]
    ensures !Broken(p)
  {
    assert NextStar(p, 5) == 5 && NextStar(p, 4) == 5 && NextStar(p, 3) == 5 && NextStar(p, 2) == 5;
    assert NextStar(p, 7) == 7 && NextStar(p, 6) == 7;
    assert Stretch(p, 2, 5, BOUNDARY) == None && !BrokenHere(p, 1) && !BrokenHere(p, 5);
    assert !BrokenFrom(p, 7, BOUNDARY) && !BrokenFrom(p, 6, BOUNDARY) && !BrokenFrom(p, 6, Within(1));
    assert !BrokenFrom(p, 5, BOUNDARY) && !BrokenFrom(p, 5, Within(1)) && !BrokenFrom(p, 4, BOUNDARY);
    assert !BrokenFrom(p, 3, BOUNDARY) && !BrokenFrom(p, 3, Within(1)) && !BrokenFrom(p, 2, BOUNDARY);
    assert !BrokenFrom(p, 2, Within(1)) && !BrokenFrom(p, 2, Within(2));
    assert !BrokenFrom(p, 1, BOUNDARY) && !BrokenFrom(p, 1, Within(1)) && !BrokenFrom(p, 1, Within(2));
  }

  // ----- paths and rules -----------------------------------------------------------------------

  predicate ExactAll(ps: seq<Bytes>) {
    forall i :: 0 <= i < |ps| ==> !Broken(ps[i]) && !Loose(ps[i])
  }

  lemma {:induction false} ComponentsAreValid(path: Bytes, from: nat)
    requires from <= |path| && Utf8.ValidFrom(path, from)
    ensures forall part :: part in Components(path, from) ==> Utf8.WellFormed(part)
    decreases |path| - from
  {
    var end := ComponentEnd(path, from);
    Utf8.StretchIsValid(path, from, from, end);
    Utf8.ValidIffWellFormed(path[from..end]);
    FirstComponent(path, from);
    if end < |path| {
      ComponentsAreValid(path, end + 1);
    }
  }

  /** Valid paths are matched without a miss, if the components of the pattern are of the good kind. */
  lemma PathsAreExact(ps: seq<Bytes>, path: Bytes, cs: CaseSensitivity)
    requires Utf8.Valid(path) && ExactAll(ps)
    ensures PathRuns(ps, Components(path, 0), cs) <==> PathMatches(ps, Components(path, 0), cs)
  {
    var ns := Components(path, 0);
    ComponentsAreValid(path, 0);
    forall i | 0 <= i < |ps| && |ps| == |ns|
      ensures Run(ps[i], ns[i], cs) <==> Match(ps[i], ns[i], cs)
    {
      SoundIsExact(ps[i], ns[i], cs);
    }
    PathRunMeaning(ps, ns, cs);
  }

  lemma {:induction false} NormalizedIsValid(path: Bytes, i: nat)
    requires i <= |path| && Utf8.ValidFrom(path, i)
    ensures Utf8.ValidFrom(Normalized(path), i)
    decreases |path| - i
  {
    if i < |path| {
      NormalizedIsValid(path, i + Utf8.Announced(path[i]));
    }
  }

  lemma NameIsValid(path: Bytes)
    requires Utf8.Valid(path)
    ensures Utf8.Valid(NameOf(path))
  {
    ComponentsAreValid(path, 0);
    NameIsLastComponent(path, 0);
    Utf8.ValidIffWellFormed(NameOf(path));
  }

  /** Rules of the good kind ignore exactly the valid paths that they apply to. */
  lemma RulesAreExact(patterns: seq<Pattern>, path: Bytes, isDirectory: bool, cs: CaseSensitivity)
    requires Utf8.WellFormed(path) && forall i :: 0 <= i < |patterns| ==> ExactAll(Components(patterns[i].text, 0))
    ensures (exists i :: 0 <= i < |patterns| && Hits(patterns[i], Normalized(path), isDirectory, cs))
            <==> Excluded(patterns, path, isDirectory, cs)
  {
    var normalized := Normalized(path);
    Utf8.ValidIffWellFormed(path);
    NormalizedIsValid(path, 0);
    NameIsValid(normalized);
    forall i | 0 <= i < |patterns|
      ensures Hits(patterns[i], normalized, isDirectory, cs) <==> Applies(patterns[i], normalized, isDirectory, cs)
    {
      PathsAreExact(Components(patterns[i].text, 0), if patterns[i].nameOnly then NameOf(normalized) else normalized, cs);
    }
    ExcludedMeaning(patterns, |patterns|, normalized, isDirectory, cs);
  }
}
