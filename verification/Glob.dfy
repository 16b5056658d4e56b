/** The glob a stream filter asks by: `*` stands for any run of characters,
    including none, and every other character is itself. */
module Glob {

  /** What a pattern means, by recursion over it: the reference the loop is
      held to. */
  predicate Matches(pattern: string, text: string)
    decreases |pattern| + |text|
  {
    if pattern == "" then text == ""
    else if pattern[0] == '*' then
      Matches(pattern[1..], text) || (text != "" && Matches(pattern, text[1..]))
    else
      text != "" && pattern[0] == text[0] && Matches(pattern[1..], text[1..])
  }

  predicate AllStars(pattern: string) {
    forall i | 0 <= i < |pattern| :: pattern[i] == '*'
  }

  predicate Literal(pattern: string) {
    '*' !in pattern
  }

  /** A run of stars is all that matches nothing. */
  lemma {:induction false} StarsMatchEmpty(pattern: string)
    ensures Matches(pattern, "") <==> AllStars(pattern)
  {
    if pattern != "" {
      StarsMatchEmpty(pattern[1..]);
      assert forall i | 0 <= i < |pattern| :: i == 0 || pattern[i] == pattern[1..][i - 1];
      assert AllStars(pattern) ==> AllStars(pattern[1..]);
    }
  }

  /** A leading star absorbs any run before what it matched. */
  lemma {:induction false} StarAbsorbs(rest: string, text: string, k: nat)
    requires k <= |text|
    requires Matches(rest, text[k..])
    ensures Matches("*" + rest, text)
    decreases k
  {
    assert ("*" + rest)[1..] == rest;
    if k == 0 {
      assert text[0..] == text;
    } else {
      assert text[1..][k - 1..] == text[k..];
      StarAbsorbs(rest, text[1..], k - 1);
    }
  }

  /** What a leading star matched, the rest matched after some run. */
  lemma {:induction false} StarSplits(rest: string, text: string) returns (k: nat)
    requires Matches("*" + rest, text)
    ensures k <= |text| && Matches(rest, text[k..])
    decreases |text|
  {
    assert ("*" + rest)[1..] == rest;
    if Matches(rest, text) {
      k := 0;
      assert text[0..] == text;
    } else {
      k := StarSplits(rest, text[1..]);
      assert text[1..][k..] == text[k + 1..];
      k := k + 1;
    }
  }

  /** A literal prefix matches exactly itself. */
  lemma {:induction false} LiteralPrefix(literal: string, rest: string, text: string)
    requires Literal(literal)
    ensures Matches(literal + rest, text)
            <==> literal <= text && Matches(rest, text[|literal|..])
  {
    if literal == "" {
      assert literal + rest == rest;
      assert text[0..] == text;
    } else {
      var whole := literal + rest;
      assert whole[0] == literal[0] && whole[1..] == literal[1..] + rest;
      if text != "" {
        LiteralPrefix(literal[1..], rest, text[1..]);
        assert |literal| <= |text| ==> text[1..][|literal| - 1..] == text[|literal|..];
        assert literal <= text <==> literal[0] == text[0] && literal[1..] <= text[1..];
      }
    }
  }

  /** A second star reached past a literal run need never be given back: the
      earlier star's run can start no later for it. */
  lemma LaterStarSuffices(literal: string, rest: string, text: string)
    requires Literal(literal) && literal <= text
    ensures Matches("*" + literal + "*" + rest, text) <==> Matches("*" + rest, text[|literal|..])
  {
    hide Matches;
    var tail := "*" + rest;
    var inner := literal + tail;
    assert "*" + literal + "*" + rest == "*" + inner;
    if Matches("*" + inner, text) {
      var k := StarSplits(inner, text);
      LiteralPrefix(literal, tail, text[k..]);
      var j := StarSplits(rest, text[k..][|literal|..]);
      assert text[k..][|literal|..][j..] == text[|literal|..][k + j..];
      StarAbsorbs(rest, text[|literal|..], k + j);
    }
    if Matches(tail, text[|literal|..]) {
      LiteralPrefix(literal, tail, text);
      assert text[0..] == text;
      StarAbsorbs(inner, text, 0);
    }
  }

  /** Where the literal run after a star does not go on, the star stands for at
      least one more character. */
  lemma StarGrows(literal: string, rest: string, text: string)
    requires Literal(literal) && literal <= text && |literal| < |text|
    requires rest == "" || (rest[0] != '*' && rest[0] != text[|literal|])
    ensures Matches("*" + literal + rest, text) <==> Matches("*" + literal + rest, text[1..])
  {
    LiteralPrefix(literal, rest, text);
    assert "*" + literal + rest == "*" + (literal + rest);
    assert ("*" + (literal + rest))[1..] == literal + rest;
  }

  /** At the end of the text the star's run is as long as it can be. */
  lemma StarEnds(literal: string, rest: string)
    requires Literal(literal)
    ensures Matches("*" + literal + rest, literal) <==> AllStars(rest)
  {
    StarsMatchEmpty(rest);
    assert "*" + literal + rest == "*" + (literal + rest);
    LiteralPrefix(literal, rest, literal);
    if Matches("*" + (literal + rest), literal) {
      var k := StarSplits(literal + rest, literal);
      LiteralPrefix(literal, rest, literal[k..]);
    }
    if AllStars(rest) {
      assert literal[0..] == literal;
      StarAbsorbs(literal + rest, literal, 0);
    }
  }

  /** Where the loop stands: the next characters to compare, and, once a star
      was met, the last one with where the text it stands for ends so far. */
  datatype Point = Fresh(p: nat, t: nat) | Starred(p: nat, t: nat, star: nat, resume: nat)

  /** Everything before the point is settled: what is left to match decides the
      whole. After a star, the characters since it are literal and have matched. */
  ghost predicate Settled(pattern: string, text: string, at: Point) {
    && at.p <= |pattern|
    && at.t <= |text|
    && match at {
         case Fresh(p, t) => Matches(pattern, text) <==> Matches(pattern[p..], text[t..])
         case Starred(p, t, star, resume) =>
           && star < p
           && resume <= t
           && pattern[star] == '*'
           && Literal(pattern[star + 1..p])
           && pattern[star + 1..p] == text[resume..t]
           && (Matches(pattern, text) <==> Matches(pattern[star..], text[resume..]))
       }
  }

  lemma SplitAtStar(pattern: string, text: string, at: Point)
    requires at.Starred? && Settled(pattern, text, at)
    ensures pattern[at.star..] == "*" + pattern[at.star + 1..at.p] + pattern[at.p..]
    ensures pattern[at.star + 1..at.p] <= text[at.resume..]
    ensures |pattern[at.star + 1..at.p]| == at.t - at.resume
  {
  }

  lemma MeetStar(pattern: string, text: string, at: Point)
    requires Settled(pattern, text, at) && at.p < |pattern| && pattern[at.p] == '*'
    ensures Settled(pattern, text, Starred(at.p + 1, at.t, at.p, at.t))
  {
    if at.Starred? {
      SplitAtStar(pattern, text, at);
      LaterStarSuffices(pattern[at.star + 1..at.p], pattern[at.p + 1..], text[at.resume..]);
      assert pattern[at.p..] == "*" + pattern[at.p + 1..];
      assert pattern[at.star..] == "*" + pattern[at.star + 1..at.p] + "*" + pattern[at.p + 1..];
      assert text[at.resume..][at.t - at.resume..] == text[at.t..];
    }
  }

  lemma Advance(pattern: string, text: string, at: Point)
    requires Settled(pattern, text, at) && at.p < |pattern| && at.t < |text|
    requires pattern[at.p] == text[at.t] && pattern[at.p] != '*'
    ensures Settled(pattern, text, at.(p := at.p + 1, t := at.t + 1))
  {
    if at.Starred? {
      assert pattern[at.star + 1..at.p + 1] == pattern[at.star + 1..at.p] + [pattern[at.p]];
      assert text[at.resume..at.t + 1] == text[at.resume..at.t] + [text[at.t]];
    } else {
      assert pattern[at.p..][1..] == pattern[at.p + 1..] && text[at.t..][1..] == text[at.t + 1..];
    }
  }

  lemma GoBack(pattern: string, text: string, at: Point)
    requires at.Starred? && Settled(pattern, text, at) && at.t < |text|
    requires at.p < |pattern| ==> pattern[at.p] != '*' && pattern[at.p] != text[at.t]
    ensures Settled(pattern, text, Starred(at.star + 1, at.resume + 1, at.star, at.resume + 1))
  {
    SplitAtStar(pattern, text, at);
    StarGrows(pattern[at.star + 1..at.p], pattern[at.p..], text[at.resume..]);
    assert text[at.resume..][1..] == text[at.resume + 1..];
  }

  lemma Finish(pattern: string, text: string, at: Point)
    requires Settled(pattern, text, at) && at.t == |text|
    ensures Matches(pattern, text) <==> AllStars(pattern[at.p..])
  {
    if at.Starred? {
      SplitAtStar(pattern, text, at);
      StarEnds(pattern[at.star + 1..at.p], pattern[at.p..]);
      assert text[at.resume..at.t] == text[at.resume..];
    } else {
      StarsMatchEmpty(pattern[at.p..]);
    }
  }

  /** The loop with one point to go back to: the last star, and how much of the
      text it stands for so far. */
  method Glob(pattern: string, text: string) returns (matched: bool)
    ensures matched <==> Matches(pattern, text)
  {
    var at := Fresh(0, 0);
    assert pattern[0..] == pattern && text[0..] == text;
    while at.t < |text|
      invariant Settled(pattern, text, at)
      decreases if at.Starred? then |text| - at.resume else |text| + 1,
                if at.Starred? then |pattern| - at.star else 0,
                |text| - at.t
    {
      if at.p < |pattern| && pattern[at.p] == '*' {
        MeetStar(pattern, text, at);
        at := Starred(at.p + 1, at.t, at.p, at.t);
      } else if at.p < |pattern| && pattern[at.p] == text[at.t] {
        Advance(pattern, text, at);
        at := at.(p := at.p + 1, t := at.t + 1);
      } else if at.Starred? {
        GoBack(pattern, text, at);
        at := Starred(at.star + 1, at.resume + 1, at.star, at.resume + 1);
      } else {
        return false;
      }
    }
    Finish(pattern, text, at);
    matched := AllStars(pattern[at.p..]);
  }
}
