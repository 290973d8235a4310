/**
 * The toy individual of string_match.py: a name evolved towards a fixed goal string.
 * Every random outcome (`random()`, `randint`, `choice`) is an explicit argument.
 */
module StringMatch {
  import opened Base

  /** The string the population evolves towards. */
  const Goal: string := "loremipsumdolorsitamet"

  /** `mate` keeps at most this many characters of the spliced name. */
  const MaxNameLength: nat := 22

  /** `mutate` only rewrites the name when its gate draw is below this. */
  const MutationGate: real := 0.1

  /**
   * Number of positions `i < min(|name|, |goal|)` where `name[i] == goal[i]`,
   * i.e. the sum over `zip(name, goal)` of the matching pairs.
   */
  function Matches(name: string, goal: string): (n: nat)
    ensures n <= |name| && n <= |goal|
  {
    if |name| == 0 || |goal| == 0 then 0
    else (if name[0] == goal[0] then 1 else 0) + Matches(name[1..], goal[1..])
  }

  /** A string matches itself at every position. */
  lemma {:induction false} MatchesSelf(s: string)
    ensures Matches(s, s) == |s|
  {
    if |s| > 0 {
      MatchesSelf(s[1..]);
    }
  }

  /** The score is perfect exactly when the name starts with the whole goal. */
  lemma {:induction false} MatchesAllIff(name: string, goal: string)
    ensures Matches(name, goal) == |goal| <==> |goal| <= |name| && name[..|goal|] == goal
  {
    if |name| == 0 || |goal| == 0 {
    } else {
      MatchesAllIff(name[1..], goal[1..]);
      if name[0] == goal[0] && |goal| <= |name| && name[1..][..|goal| - 1] == goal[1..] {
        assert name[..|goal|] == [name[0]] + name[1..][..|goal| - 1];
        assert goal == [goal[0]] + goal[1..];
      }
      if |goal| <= |name| && name[..|goal|] == goal {
        assert name[0] == name[..|goal|][0];
        assert name[1..][..|goal| - 1] == name[..|goal|][1..];
      }
    }
  }

  /** The goal itself scores 22, the largest possible score. */
  lemma GoalScoresMaximum()
    ensures |Goal| == MaxNameLength
    ensures Matches(Goal, Goal) == MaxNameLength
    ensures forall name: string :: Matches(name, Goal) <= MaxNameLength
  {
    MatchesSelf(Goal);
  }

  /** The random outcomes one call of `mutate` consumes. */
  datatype MutationDraw = MutationDraw(
    gate: real,          // `random()` compared with 0.1
    picks: seq<int>,     // per position, `randint(0, len(name) - 1)`
    letters: seq<char>)  // per position, `choice(ascii_lowercase)` (used where the pick hits)

  /** The outcomes are ones `random()`, `randint` and `choice` can produce for a name of length `n`. */
  predicate DrawFits(d: MutationDraw, n: nat) {
    && 0.0 <= d.gate < 1.0
    && |d.picks| == n && |d.letters| == n
    && (forall k :: 0 <= k < n ==> 0 <= d.picks[k] < n)
    && (forall k :: 0 <= k < n ==> 'a' <= d.letters[k] <= 'z')
  }

  /**
   * The name `mutate` builds: below the gate, position `i` takes a fresh lowercase letter
   * when its own `randint` draw equals `i`; otherwise the name is kept.
   */
  function Mutated(name: string, d: MutationDraw): (r: string)
    requires DrawFits(d, |name|)
    ensures |r| == |name|
    ensures d.gate >= MutationGate ==> r == name
    ensures forall k :: 0 <= k < |r| && r[k] != name[k] ==>
              d.gate < MutationGate && d.picks[k] == k && 'a' <= r[k] <= 'z'
  {
    if d.gate < MutationGate then
      seq(|name|, k requires 0 <= k < |name| => if d.picks[k] == k then d.letters[k] else name[k])
    else name
  }

  /**
   * The child name of `mate`: the first `i` characters of one parent followed by the
   * other parent's name from index `j`, cut to 22 characters.
   */
  function Spliced(a: string, b: string, i: nat, j: nat): (r: string)
    requires i <= |a| && j <= |b|
    ensures |r| == Min(i + (|b| - j), MaxNameLength)
    ensures forall k :: 0 <= k < |r| ==> r[k] == if k < i then a[k] else b[j + (k - i)]
  {
    var whole := a[0..i] + b[j..|b|];
    if |whole| <= MaxNameLength then whole else whole[..MaxNameLength]
  }

  /** `String`: an individual whose genome is its name. */
  class String {
    var name: string

    constructor (name: string)
      ensures this.name == name
    {
      this.name := name;
    }

    /** `rate`: how many positions of the name agree with the goal. */
    function Rate(): (r: nat)
      reads this
      ensures r <= MaxNameLength && r <= |name|
      ensures r == MaxNameLength <==> |Goal| <= |name| && name[..|Goal|] == Goal
    {
      MatchesAllIff(name, Goal);
      Matches(name, Goal)
    }

    /** `mutate` rewrites the name in place. */
    method Mutate(d: MutationDraw)
      requires DrawFits(d, |name|)
      modifies this
      ensures name == Mutated(old(name), d)
    {
      name := Mutated(name, d);
    }

    /** `clone`: a new individual with the same name, hence the same rate. */
    method Clone() returns (c: String)
      ensures fresh(c)
      ensures c.name == name && c.Rate() == Rate()
    {
      c := new String(name);
    }

    /** `mate`, given the two `randint` cut points. */
    method Mate(other: String, i: nat, j: nat) returns (child: String)
      requires i <= |name| && j <= |other.name|
      ensures fresh(child)
      ensures child.name == Spliced(name, other.name, i, j)
    {
      child := new String(Spliced(name, other.name, i, j));
    }
  }
}
