/**
 * The hero banner's typewriter: a role string is typed one character at a
 * time, held, deleted one character at a time, held, and the next role in a
 * fixed list follows, for ever. Each timer callback performs one step and
 * schedules the next one after a delay that depends on the step taken.
 *
 * The pure part (Step, Iterate, Delays) is the specification; the class
 * HeroComponent holds the component's fields and updates them in place.
 */
module Hero {
  import opened Wrappers

  /** Delays, in milliseconds, between two steps. */
  const TypingSpeed: int := 100
  const DeletingSpeed: int := 50
  const PauseAfterComplete: int := 2000
  const PauseAfterDelete: int := 500

  /** The roles the banner cycles through. */
  const DefaultRoles: seq<string> :=
    ["Web Developer", "Angular Developer", "Frontend Developer", "TypeScript Expert"]

  /** An index argument of String.prototype.substring, clamped to [0, len]. */
  function Clamp(x: int, len: nat): (r: nat)
    ensures r <= len
    ensures 0 <= x <= len ==> r == x
    ensures x < 0 ==> r == 0
    ensures len < x ==> r == len
  {
    if x < 0 then 0 else if x > len then len else x
  }

  /**
   * String.prototype.substring: both indices are clamped to the string,
   * and swapped when the start lies after the end.
   */
  function Substring(s: string, start: int, end: int): (r: string)
    ensures 0 <= start <= end <= |s| ==> r == s[start..end]
    ensures start == 0 ==> r <= s && |r| == Clamp(end, |s|)
  {
    var a, b := Clamp(start, |s|), Clamp(end, |s|);
    if a <= b then s[a..b] else s[b..a]
  }

  /** The typewriter's state: displayedText, currentRoleIndex, isDeleting. */
  datatype Typer = Typer(text: string, index: nat, deleting: bool)

  /** The state after one step, and the delay before the next step. */
  datatype Tick = Tick(next: Typer, delay: int)

  const Initial: Typer := Typer("", 0, false)

  /** The state the component's invariant allows over `roles`. */
  function Consistent(roles: seq<string>, t: Typer): (b: bool)
    ensures b ==> t.index < |roles| && |t.text| <= |roles[t.index]|
    // "" is consistent at every role, which the advance to the next role relies on
    ensures t.index < |roles| && t.text == "" ==> b
  {
    t.index < |roles| && t.text <= roles[t.index]
  }

  /** One call of the typewriter's timer callback. */
  function Step(roles: seq<string>, t: Typer): (r: Tick)
    requires t.index < |roles|
    ensures Consistent(roles, r.next)
    // the index moves, to the next role cyclically, only when a deletion empties the text
    ensures r.next.index == if t.deleting && r.next.text == "" then (t.index + 1) % |roles| else t.index
    // typing: one more character of the role; deleting: one character less
    ensures !t.deleting && t.text < roles[t.index] ==>
              |r.next.text| == |t.text| + 1 && t.text < r.next.text
    ensures t.deleting && t.text <= roles[t.index] && t.text != "" ==>
              r.next.text == t.text[..|t.text| - 1]
    // deleting from "" stays at "" (substring clamps -1 to 0), so the index advances
    ensures t.deleting && t.text == "" ==> r.next == Typer("", (t.index + 1) % |roles|, false)
    // typing once the role is complete only flips the mode
    ensures !t.deleting && t.text == roles[t.index] ==> r.next == Typer(roles[t.index], t.index, true)
    // the mode flips exactly at the two ends
    ensures !t.deleting ==> (r.next.deleting <==> r.next.text == roles[t.index])
    ensures t.deleting ==> (!r.next.deleting <==> r.next.text == "")
    // the delay is chosen by the branch taken
    ensures r.delay == PauseAfterComplete <==> !t.deleting && r.next.deleting
    ensures r.delay == TypingSpeed <==> !t.deleting && !r.next.deleting
    ensures r.delay == PauseAfterDelete <==> t.deleting && !r.next.deleting
    ensures r.delay == DeletingSpeed <==> t.deleting && r.next.deleting
  {
    var role := roles[t.index];
    if t.deleting then
      var text := Substring(role, 0, |t.text| - 1);
      if text == "" then Tick(Typer(text, (t.index + 1) % |roles|, false), PauseAfterDelete)
      else Tick(Typer(text, t.index, true), DeletingSpeed)
    else
      var text := Substring(role, 0, |t.text| + 1);
      if text == role then Tick(Typer(text, t.index, true), PauseAfterComplete)
      else Tick(Typer(text, t.index, false), TypingSpeed)
  }

  /** The state after `k` steps. */
  function Iterate(roles: seq<string>, t: Typer, k: nat): (r: Typer)
    requires t.index < |roles|
    ensures r.index < |roles|
    decreases k
  {
    if k == 0 then t else Iterate(roles, Step(roles, t).next, k - 1)
  }

  /** From a consistent state, or after at least one step, the state is consistent. */
  lemma {:induction false} IterateConsistent(roles: seq<string>, t: Typer, k: nat)
    requires t.index < |roles|
    ensures k > 0 || Consistent(roles, t) ==> Consistent(roles, Iterate(roles, t, k))
    decreases k
  {
    if k > 1 {
      IterateConsistent(roles, Step(roles, t).next, k - 1);
    }
  }

  /** The delays chosen by the first `k` steps. */
  function Delays(roles: seq<string>, t: Typer, k: nat): (r: seq<int>)
    requires t.index < |roles|
    ensures |r| == k
    decreases k
  {
    if k == 0 then [] else [Step(roles, t).delay] + Delays(roles, Step(roles, t).next, k - 1)
  }

  /** `n` copies of delay `d`. */
  function Repeat(d: int, n: nat): (r: seq<int>)
    ensures |r| == n
    ensures forall i :: 0 <= i < n ==> r[i] == d
  {
    if n == 0 then [] else [d] + Repeat(d, n - 1)
  }

  /** The number of steps that types, or deletes, one role: an empty role takes one. */
  function Phase(role: string): (r: nat)
    ensures r >= 1 && r >= |role|
  {
    if |role| == 0 then 1 else |role|
  }

  /** Step k + 1 continues from the state after k steps. */
  lemma {:induction false} IterateLast(roles: seq<string>, t: Typer, k: nat)
    requires t.index < |roles|
    ensures Iterate(roles, t, k + 1) == Step(roles, Iterate(roles, t, k)).next
    decreases k
  {
    if k > 0 {
      IterateLast(roles, Step(roles, t).next, k - 1);
    }
  }

  /** Step k + 1 appends its delay to those of the first k steps. */
  lemma {:induction false} DelaysLast(roles: seq<string>, t: Typer, k: nat)
    requires t.index < |roles|
    ensures Delays(roles, t, k + 1) == Delays(roles, t, k) + [Step(roles, Iterate(roles, t, k)).delay]
    decreases k
  {
    if k > 0 {
      DelaysLast(roles, Step(roles, t).next, k - 1);
    }
  }

  /** Running a + b steps is running a steps, then b more. */
  lemma {:induction false} IterateAdd(roles: seq<string>, t: Typer, a: nat, b: nat)
    requires t.index < |roles|
    ensures Iterate(roles, t, a + b) == Iterate(roles, Iterate(roles, t, a), b)
    decreases a
  {
    if a > 0 {
      IterateAdd(roles, Step(roles, t).next, a - 1, b);
    }
  }

  /** One unfolding of Iterate and Delays. */
  lemma DelaysUnfold(roles: seq<string>, t: Typer, k: nat)
    requires t.index < |roles| && k > 0
    ensures Iterate(roles, t, k) == Iterate(roles, Step(roles, t).next, k - 1)
    ensures Delays(roles, t, k) == [Step(roles, t).delay] + Delays(roles, Step(roles, t).next, k - 1)
  {
  }

  /** The delays of a + b steps are those of a steps, then those of b more. */
  lemma {:induction false} DelaysAdd(roles: seq<string>, t: Typer, a: nat, b: nat)
    requires t.index < |roles|
    ensures Delays(roles, t, a + b) == Delays(roles, t, a) + Delays(roles, Iterate(roles, t, a), b)
    decreases a
  {
    if a > 0 {
      var next := Step(roles, t).next;
      DelaysAdd(roles, next, a - 1, b);
      DelaysUnfold(roles, t, a);
      DelaysUnfold(roles, t, a + b);
    }
  }

  /** From a proper prefix of length j, typing reaches the full role, then holds. */
  lemma {:induction false} TypingRun(roles: seq<string>, i: nat, j: nat)
    requires i < |roles| && j < |roles[i]|
    ensures Iterate(roles, Typer(roles[i][..j], i, false), |roles[i]| - j) == Typer(roles[i], i, true)
    ensures Delays(roles, Typer(roles[i][..j], i, false), |roles[i]| - j)
            == Repeat(TypingSpeed, |roles[i]| - j - 1) + [PauseAfterComplete]
    decreases |roles[i]| - j
  {
    var role := roles[i];
    var t := Typer(role[..j], i, false);
    assert role[..j + 1][..j] == role[..j];
    if j + 1 == |role| {
      assert role[..j + 1] == role;
      assert Step(roles, t) == Tick(Typer(role, i, true), PauseAfterComplete);
    } else {
      assert Step(roles, t) == Tick(Typer(role[..j + 1], i, false), TypingSpeed);
      TypingRun(roles, i, j + 1);
      assert |role| - j == 1 + (|role| - (j + 1));
    }
  }

  /** From a non-empty prefix of length j, deleting reaches "" in j steps and moves to the next role. */
  lemma {:induction false} DeletingRun(roles: seq<string>, i: nat, j: nat)
    requires i < |roles| && 1 <= j <= |roles[i]|
    ensures Iterate(roles, Typer(roles[i][..j], i, true), j) == Typer("", (i + 1) % |roles|, false)
    ensures Delays(roles, Typer(roles[i][..j], i, true), j)
            == Repeat(DeletingSpeed, j - 1) + [PauseAfterDelete]
    decreases j
  {
    var role := roles[i];
    var t := Typer(role[..j], i, true);
    if j == 1 {
      assert Step(roles, t) == Tick(Typer("", (i + 1) % |roles|, false), PauseAfterDelete);
    } else {
      assert Step(roles, t) == Tick(Typer(role[..j - 1], i, true), DeletingSpeed);
      DeletingRun(roles, i, j - 1);
    }
  }

  /** An empty role is "typed" in one step, which only flips to deleting. */
  lemma TypeEmptyRole(roles: seq<string>, i: nat)
    requires i < |roles| && roles[i] == ""
    ensures Iterate(roles, Typer("", i, false), 1) == Typer("", i, true)
    ensures Delays(roles, Typer("", i, false), 1) == [PauseAfterComplete]
  {
    var t := Typer("", i, false);
    assert Step(roles, t) == Tick(Typer("", i, true), PauseAfterComplete) by {
      assert Substring(roles[i], 0, 1) == "";
    }
  }

  /** From "" in typing mode, Phase steps display the whole role and switch to deleting. */
  lemma TypePhase(roles: seq<string>, i: nat)
    requires i < |roles|
    ensures Iterate(roles, Typer("", i, false), Phase(roles[i])) == Typer(roles[i], i, true)
    ensures Delays(roles, Typer("", i, false), Phase(roles[i]))
            == Repeat(TypingSpeed, Phase(roles[i]) - 1) + [PauseAfterComplete]
  {
    if |roles[i]| == 0 {
      TypeEmptyRole(roles, i);
    } else {
      assert roles[i][..0] == "";
      TypingRun(roles, i, 0);
    }
  }

  /** An empty role is "deleted" in one step, which moves to the next role. */
  lemma DeleteEmptyRole(roles: seq<string>, i: nat)
    requires i < |roles| && roles[i] == ""
    ensures Iterate(roles, Typer("", i, true), 1) == Typer("", (i + 1) % |roles|, false)
    ensures Delays(roles, Typer("", i, true), 1) == [PauseAfterDelete]
  {
    var t := Typer("", i, true);
    assert Step(roles, t) == Tick(Typer("", (i + 1) % |roles|, false), PauseAfterDelete) by {
      assert Substring(roles[i], 0, -1) == "";
    }
  }

  /** From the full role in deleting mode, Phase steps empty the text and move to the next role. */
  lemma DeletePhase(roles: seq<string>, i: nat)
    requires i < |roles|
    ensures Iterate(roles, Typer(roles[i], i, true), Phase(roles[i])) == Typer("", (i + 1) % |roles|, false)
    ensures Delays(roles, Typer(roles[i], i, true), Phase(roles[i]))
            == Repeat(DeletingSpeed, Phase(roles[i]) - 1) + [PauseAfterDelete]
  {
    if |roles[i]| == 0 {
      DeleteEmptyRole(roles, i);
    } else {
      assert roles[i][..|roles[i]|] == roles[i];
      DeletingRun(roles, i, |roles[i]|);
    }
  }

  /** Two runs that meet compose into one. */
  lemma Compose(roles: seq<string>, t: Typer, mid: Typer, last: Typer, a: nat, b: nat)
    requires t.index < |roles| && mid.index < |roles|
    requires Iterate(roles, t, a) == mid && Iterate(roles, mid, b) == last
    ensures Iterate(roles, t, a + b) == last
  {
    IterateAdd(roles, t, a, b);
  }

  /** One role's whole cycle: typed in full after Phase steps, deleted after Phase more. */
  lemma RoleCycle(roles: seq<string>, i: nat)
    requires i < |roles|
    ensures Iterate(roles, Typer("", i, false), Phase(roles[i])) == Typer(roles[i], i, true)
    ensures Iterate(roles, Typer("", i, false), Phase(roles[i]) + Phase(roles[i])) == Typer("", (i + 1) % |roles|, false)
  {
    var p := Phase(roles[i]);
    var start, typed, done := Typer("", i, false), Typer(roles[i], i, true), Typer("", (i + 1) % |roles|, false);
    assert Iterate(roles, start, p) == typed by {
      TypePhase(roles, i);
    }
    assert Iterate(roles, typed, p) == done by {
      DeletePhase(roles, i);
    }
    Compose(roles, start, typed, done, p, p);
  }

  /** From the initial state: the first role is typed, then deleted, and the index becomes 1 mod n. */
  lemma FirstRole(roles: seq<string>)
    requires |roles| > 0
    ensures Iterate(roles, Initial, Phase(roles[0])) == Typer(roles[0], 0, true)
    ensures Iterate(roles, Initial, Phase(roles[0]) + Phase(roles[0])) == Typer("", 1 % |roles|, false)
  {
    RoleCycle(roles, 0);
  }

  /** The number of steps of c consecutive role cycles starting at role i. */
  function CycleSteps(roles: seq<string>, i: nat, c: nat): (r: nat)
    requires i < |roles|
    ensures r >= 2 * c
    decreases c
  {
    if c == 0 then 0 else Phase(roles[i]) + Phase(roles[i]) + CycleSteps(roles, (i + 1) % |roles|, c - 1)
  }

  /** Euclidean division is unique: a quotient and a remainder in [0, n) determine a % n. */
  lemma ModUnique(a: int, n: int, q: int, m: int)
    requires n > 0 && 0 <= m < n && a == n * q + m
    ensures a % n == m
  {
    var d := q - a / n;
    assert n * d == a % n - m;
  }

  lemma ModSucc(i: nat, c: nat, n: nat)
    requires i < n
    ensures ((i + 1) % n + c) % n == (i + 1 + c) % n
  {
    if i + 1 == n {
      assert (i + 1) % n == 0;
      ModUnique(n + c, n, c / n + 1, c % n);
    } else {
      assert (i + 1) % n == i + 1;
    }
  }

  /** The first of c cycles takes the typewriter from role i to the next role. */
  lemma FirstCycle(roles: seq<string>, i: nat, c: nat)
    requires i < |roles| && c > 0
    ensures Iterate(roles, Typer("", i, false), CycleSteps(roles, i, c))
            == Iterate(roles, Typer("", (i + 1) % |roles|, false), CycleSteps(roles, (i + 1) % |roles|, c - 1))
  {
    var start := Typer("", i, false);
    var first, rest := Phase(roles[i]) + Phase(roles[i]), CycleSteps(roles, (i + 1) % |roles|, c - 1);
    RoleCycle(roles, i);
    IterateAdd(roles, start, first, rest);
  }

  /** The roles are visited in order: c cycles from role i end at role (i + c) mod n. */
  lemma {:induction false} Cycles(roles: seq<string>, i: nat, c: nat)
    requires i < |roles|
    ensures Iterate(roles, Typer("", i, false), CycleSteps(roles, i, c)) == Typer("", (i + c) % |roles|, false)
    decreases c
  {
    if c > 0 {
      FirstCycle(roles, i, c);
      Cycles(roles, (i + 1) % |roles|, c - 1);
      ModSucc(i, c - 1, |roles|);
    }
  }

  /** Cycle j of those starting at role i shows role (i + j) mod n in full. */
  lemma CycleShows(roles: seq<string>, i: nat, j: nat)
    requires i < |roles|
    ensures var k := (i + j) % |roles|;
            Iterate(roles, Typer("", i, false), CycleSteps(roles, i, j) + Phase(roles[k])) == Typer(roles[k], k, true)
  {
    var k := (i + j) % |roles|;
    Cycles(roles, i, j);
    TypePhase(roles, k);
    IterateAdd(roles, Typer("", i, false), CycleSteps(roles, i, j), Phase(roles[k]));
  }

  /** n * N cycles from role i come back to "" at role i. */
  lemma ReturnToStart(roles: seq<string>, i: nat, cycles: nat)
    requires i < |roles|
    ensures Iterate(roles, Typer("", i, false), CycleSteps(roles, i, |roles| * cycles)) == Typer("", i, false)
  {
    var n := |roles|;
    var c := n * cycles;
    assert Iterate(roles, Typer("", i, false), CycleSteps(roles, i, c)) == Typer("", (i + c) % n, false) by {
      Cycles(roles, i, c);
    }
    assert (i + c) % n == i by {
      ModUnique(i + c, n, cycles, i);
    }
  }

  /** The indices a, a + 1, ..., b - 1. */
  function Range(a: nat, b: nat): (r: seq<int>)
    requires a <= b
    ensures |r| == b - a
    decreases b - a
  {
    if a == b then [] else [a] + Range(a + 1, b)
  }

  lemma {:induction false} RangeAt(a: nat, b: nat, j: nat)
    requires a <= b && j < b - a
    ensures Range(a, b)[j] == a + j
    decreases b - a
  {
    if j > 0 {
      RangeAt(a + 1, b, j - 1);
    }
  }

  lemma {:induction false} RangeCount(a: nat, b: nat, x: nat)
    requires a <= b
    ensures multiset(Range(a, b))[x] == if a <= x < b then 1 else 0
    decreases b - a
  {
    if a < b {
      RangeCount(a + 1, b, x);
    }
  }

  /** The role index shown by each of the first c cycles that start at role i. */
  function ShownOrder(n: nat, i: nat, c: nat): (r: seq<int>)
    requires i < n
    ensures |r| == c
  {
    seq(c, j => (i + j) % n)
  }

  /** Cycle j shows role (i + j) mod n, the role CycleShows finds displayed. */
  lemma ShownOrderAt(n: nat, i: nat, c: nat, j: nat)
    requires i < n && j < c
    ensures ShownOrder(n, i, c)[j] == (i + j) % n
  {
  }

  /** Entry j of the shown order is the role the typewriter displays in full during cycle j. */
  lemma ShownOrderDisplayed(roles: seq<string>, i: nat, c: nat, j: nat)
    requires i < |roles| && j < c
    ensures var k := ShownOrder(|roles|, i, c)[j];
            0 <= k < |roles| &&
            Iterate(roles, Typer("", i, false), CycleSteps(roles, i, j) + Phase(roles[k])) == Typer(roles[k], k, true)
  {
    CycleShows(roles, i, j);
  }

  /** Adding whole rounds of n does not change a residue. */
  lemma ModRounds(x: nat, n: nat, rounds: nat)
    requires n > 0
    ensures (x + n * rounds) % n == x % n
  {
    assert n * (x / n + rounds) == n * (x / n) + n * rounds;
    ModUnique(x + n * rounds, n, x / n + rounds, x % n);
  }

  /** The cycles after `rounds` whole rounds repeat the order of the first ones. */
  lemma ShownOrderShift(n: nat, i: nat, rounds: nat, k: nat)
    requires i < n
    ensures ShownOrder(n, i, n * rounds + k) == ShownOrder(n, i, n * rounds) + ShownOrder(n, i, k)
  {
    var whole, head, tail := ShownOrder(n, i, n * rounds + k), ShownOrder(n, i, n * rounds), ShownOrder(n, i, k);
    forall j | 0 <= j < n * rounds + k
      ensures whole[j] == (head + tail)[j]
    {
      ShownOrderAt(n, i, n * rounds + k, j);
      if j < n * rounds {
        ShownOrderAt(n, i, n * rounds, j);
      } else {
        ShownOrderAt(n, i, k, j - n * rounds);
        ModRounds(i + (j - n * rounds), n, rounds);
      }
    }
    assert whole == head + tail;
  }

  /** One round of n cycles from role i shows i, ..., n - 1, then 0, ..., i - 1. */
  lemma OneRound(n: nat, i: nat)
    requires i < n
    ensures ShownOrder(n, i, n) == Range(i, n) + Range(0, i)
  {
    var round, split := ShownOrder(n, i, n), Range(i, n) + Range(0, i);
    forall j | 0 <= j < n
      ensures round[j] == split[j]
    {
      ShownOrderAt(n, i, n, j);
      if j < n - i {
        RangeAt(i, n, j);
        ModUnique(i + j, n, 0, i + j);
      } else {
        RangeAt(0, i, j - (n - i));
        ModUnique(i + j, n, 1, i + j - n);
      }
    }
  }

  /** One round shows every role once. */
  lemma RoundCount(n: nat, i: nat, x: nat)
    requires i < n && x < n
    ensures multiset(ShownOrder(n, i, n))[x] == 1
  {
    OneRound(n, i);
    RangeCount(i, n, x);
    RangeCount(0, i, x);
  }

  /** Over N rounds of n cycles every role is shown exactly N times. */
  lemma {:induction false} ShownEvenly(n: nat, i: nat, rounds: nat, x: nat)
    requires i < n && x < n
    ensures multiset(ShownOrder(n, i, n * rounds))[x] == rounds
    decreases rounds
  {
    if rounds > 0 {
      var before := n * (rounds - 1);
      var head, round := ShownOrder(n, i, before), ShownOrder(n, i, n);
      assert ShownOrder(n, i, n * rounds) == head + round by {
        assert n * rounds == before + n;
        ShownOrderShift(n, i, rounds - 1, n);
      }
      assert multiset(head)[x] == rounds - 1 by {
        ShownEvenly(n, i, rounds - 1, x);
      }
      assert multiset(round)[x] == 1 by {
        RoundCount(n, i, x);
      }
    }
  }

  /** An empty role does not stall: typing flips to deleting, deleting moves to the next role. */
  lemma EmptyRole(roles: seq<string>, i: nat)
    requires i < |roles| && roles[i] == ""
    ensures Step(roles, Typer("", i, false)) == Tick(Typer("", i, true), PauseAfterComplete)
    ensures Step(roles, Typer("", i, true)) == Tick(Typer("", (i + 1) % |roles|, false), PauseAfterDelete)
  {
  }

  /** With the single role "Go" the text runs "G", "Go", "G", "", "G", "Go". */
  lemma GoTrace()
    ensures Iterate(["Go"], Initial, 1).text == "G"
    ensures Iterate(["Go"], Initial, 2) == Typer("Go", 0, true)
    ensures Iterate(["Go"], Initial, 3).text == "G"
    ensures Iterate(["Go"], Initial, 4) == Initial
    ensures Iterate(["Go"], Initial, 5).text == "G"
    ensures Iterate(["Go"], Initial, 6) == Typer("Go", 0, true)
    ensures Delays(["Go"], Initial, 6) == [100, 2000, 50, 500, 100, 2000]
  {
  }

  /** A timer handle counts as set when it is truthy: present and non-zero. */
  function Truthy(id: Option<int>): (b: bool)
    ensures b ==> id.Some?
    ensures !b <==> id == None || id == Some(0)
    ensures id.Some? && id.value > 0 ==> b
  {
    id.Some? && id.value != 0
  }

  class HeroComponent {
    const roles: seq<string>
    var displayedText: string
    var currentRoleIndex: nat
    var isDeleting: bool
    /** The handle of the pending timer; None until the first one is scheduled. */
    var timeoutId: Option<int>

    ghost predicate Valid()
      reads this
    {
      Consistent(roles, State())
    }

    function State(): Typer
      reads this
    {
      Typer(displayedText, currentRoleIndex, isDeleting)
    }

    constructor(roles: seq<string>)
      requires |roles| > 0
      ensures Valid()
      ensures this.roles == roles && State() == Initial && timeoutId == None
    {
      this.roles := roles;
      displayedText := "";
      currentRoleIndex := 0;
      isDeleting := false;
      timeoutId := None;
    }

    /**
     * One timer callback: update the text and the mode, and schedule the
     * next callback; `handle` is the identifier the scheduler returns for
     * it, and `delay` the delay it is scheduled after.
     */
    method TypeText(handle: int) returns (delay: int)
      requires Valid()
      modifies this
      ensures Valid()
      ensures Tick(State(), delay) == Step(roles, old(State()))
      ensures timeoutId == Some(handle)
    {
      var currentRole := roles[currentRoleIndex];
      if isDeleting {
        displayedText := Substring(currentRole, 0, |displayedText| - 1);
        if displayedText == "" {
          isDeleting := false;
          currentRoleIndex := (currentRoleIndex + 1) % |roles|;
          delay := PauseAfterDelete;
        } else {
          delay := DeletingSpeed;
        }
      } else {
        displayedText := Substring(currentRole, 0, |displayedText| + 1);
        if displayedText == currentRole {
          isDeleting := true;
          delay := PauseAfterComplete;
        } else {
          delay := TypingSpeed;
        }
      }
      timeoutId := Some(handle);
    }

    /** Mounting the view performs the first step at once. */
    method OnInit(handle: int) returns (delay: int)
      requires Valid()
      modifies this
      ensures Valid()
      ensures Tick(State(), delay) == Step(roles, old(State()))
      ensures timeoutId == Some(handle)
    {
      delay := TypeText(handle);
    }

    /**
     * Tearing the view down cancels the pending timer when one is set;
     * `cleared` is the handle cancelled. The typewriter state is left alone.
     */
    method OnDestroy() returns (cleared: Option<int>)
      ensures cleared.Some? <==> Truthy(timeoutId)
      ensures cleared.Some? ==> cleared == timeoutId
    {
      if Truthy(timeoutId) {
        cleared := timeoutId;
      } else {
        cleared := None;
      }
    }

    /** The chain of timer callbacks: the i-th callback runs under handles[i]. */
    method Run(handles: seq<int>) returns (delays: seq<int>)
      requires Valid()
      modifies this
      ensures Valid()
      ensures State() == Iterate(roles, old(State()), |handles|)
      ensures delays == Delays(roles, old(State()), |handles|)
      ensures timeoutId == if handles == [] then old(timeoutId) else Some(handles[|handles| - 1])
    {
      ghost var start := State();
      delays := [];
      var k := 0;
      while k < |handles|
        invariant 0 <= k <= |handles|
        invariant Valid()
        invariant State() == Iterate(roles, start, k)
        invariant delays == Delays(roles, start, k)
        invariant timeoutId == if k == 0 then old(timeoutId) else Some(handles[k - 1])
      {
        IterateLast(roles, start, k);
        DelaysLast(roles, start, k);
        var d := TypeText(handles[k]);
        delays := delays + [d];
        k := k + 1;
      }
    }
  }

  /** Mounting, n callbacks and unmounting: the last scheduled timer is the one cancelled. */
  method MountAndUnmount(handles: seq<int>) returns (cleared: Option<int>)
    requires |handles| > 0 && forall i :: 0 <= i < |handles| ==> handles[i] > 0
    ensures cleared == Some(handles[|handles| - 1])
  {
    var hero := new HeroComponent(DefaultRoles);
    var d := hero.OnInit(handles[0]);
    var rest := hero.Run(handles[1..]);
    cleared := hero.OnDestroy();
  }
}
