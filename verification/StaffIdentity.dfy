/** alembic/versions/a8b9c0d1e2f3_branch_scoped_staff_login.py: a store code for
    every restaurant, and a staff number within it. */
module StaffIdentity {
  import opened RowNumber

  // ---- staff codes ---------------------------------------------------------

  /** staff_members by primary key, each with its restaurant. */
  type Staff = map<int, int>

  function Colleagues(staff: Staff, restaurantId: int): set<SortKey> {
    set id | id in staff && staff[id] == restaurantId :: SortKey(0, id)
  }

  /** Every member gets its row number by id among its colleagues. */
  function StaffCodes(staff: Staff): map<int, nat> {
    map id | id in staff :: Number(Colleagues(staff, staff[id]), SortKey(0, id))
  }

  ghost predicate Held(staff: Staff, restaurantId: int, c: nat) {
    exists id :: id in staff && staff[id] == restaurantId && StaffCodes(staff)[id] == c
  }

  /** Within a restaurant the codes follow hire order, and are exactly 1..N, each
      held by one person. */
  lemma StaffCodesAreABijection(staff: Staff, restaurantId: int)
    ensures var codes, n := StaffCodes(staff), |Colleagues(staff, restaurantId)|;
            && (forall id | id in staff && staff[id] == restaurantId :: 1 <= codes[id] <= n)
            && (forall a, b | a in staff && b in staff && staff[a] == staff[b] == restaurantId && a < b ::
                  codes[a] < codes[b])
            && (forall c: nat | 1 <= c <= n :: Held(staff, restaurantId, c))
  {
    var codes, colleagues := StaffCodes(staff), Colleagues(staff, restaurantId);
    forall id | id in staff && staff[id] == restaurantId
      ensures 1 <= codes[id] <= |colleagues|
    {
      NumberInRange(colleagues, SortKey(0, id));
    }
    forall a, b | a in staff && b in staff && staff[a] == staff[b] == restaurantId && a < b
      ensures codes[a] < codes[b]
    {
      NumberIsMonotone(colleagues, SortKey(0, a), SortKey(0, b));
    }
    forall c: nat | 1 <= c <= |colleagues|
      ensures Held(staff, restaurantId, c)
    {
      var k := NumberIsOnto(colleagues, c);
      assert codes[k.id] == c;
    }
  }

  // ---- store codes -----------------------------------------------------------

  const ALPHABET := "ABCDEFGHJKLMNPQRSTUVWXYZ23456789"
  const LENGTH := 8

  /** The generator's characters, in the order `secrets.choice` will draw them. */
  type Tape = nat -> char

  ghost predicate Draws(tape: Tape, alphabet: string) {
    forall p: nat :: tape(p) in alphabet
  }

  function CodeAt(tape: Tape, p: nat): string {
    seq(LENGTH, i requires 0 <= i < LENGTH => tape(p + i))
  }

  /** The code that `n` more draws after position `p` lead to. */
  function NthCode(tape: Tape, p: nat, n: nat): string {
    CodeAt(tape, p + LENGTH * n)
  }

  ghost predicate ReachesNewCode(tape: Tape, p: nat, used: set<string>) {
    exists n: nat :: NthCode(tape, p, n) !in used
  }

  /** The tape does not repeat a few codes forever: from any position, and whatever
      fewer than `n` codes are used up, one of the draws to come is not among them. */
  ghost predicate KeepsReachingNewCodes(tape: Tape, n: nat) {
    forall p: nat, used: set<string> :: |used| < n ==> ReachesNewCode(tape, p, used)
  }

  predicate IsCode(code: string, alphabet: string) {
    |code| == LENGTH && forall c :: c in code ==> c in alphabet
  }

  /** A store code is eight characters, capital letters and digits, none of which can be taken
      for another: there is no I, O, 0 or 1. */
  lemma CodeIsReadable(code: string)
    ensures IsCode(code, ALPHABET) <==>
            |code| == 8 && forall c | c in code :: ('A' <= c <= 'Z' && c != 'I' && c != 'O') || '2' <= c <= '9'
  {
    forall c: char
      ensures c in ALPHABET <==> ('A' <= c <= 'Z' && c != 'I' && c != 'O') || '2' <= c <= '9'
    {
      InAlphabet(c);
    }
  }

  lemma InAlphabet(c: char)
    ensures c in ALPHABET <==> ('A' <= c <= 'Z' && c != 'I' && c != 'O') || '2' <= c <= '9'
  {
    var a, b, p, d := "ABCDEFGH", "JKLMN", "PQRSTUVWXYZ", "23456789";
    assert ALPHABET == a + b + p + d;
    InSpan(a, 'A', c);
    InSpan(b, 'J', c);
    InSpan(p, 'P', c);
    InSpan(d, '2', c);
  }

  lemma InSpan(s: string, first: char, c: char)
    requires forall i | 0 <= i < |s| :: s[i] as int == first as int + i
    ensures c in s <==> 0 <= c as int - first as int < |s|
  {
    if 0 <= c as int - first as int < |s| {
      assert s[c as int - first as int] == c;
    }
  }

  lemma CodeIsWellFormed(tape: Tape, p: nat, alphabet: string)
    requires Draws(tape, alphabet)
    ensures IsCode(CodeAt(tape, p), alphabet)
  {
    forall c | c in CodeAt(tape, p)
      ensures c in alphabet
    {
      var i :| 0 <= i < LENGTH && CodeAt(tape, p)[i] == c;
      assert tape(p + i) == c;
    }
  }

  /** Draw a code, and draw again while it is taken. */
  method DrawCode(tape: Tape, start: nat, used: set<string>, ghost alphabet: string) returns (code: string, p: nat)
    requires Draws(tape, alphabet) && ReachesNewCode(tape, start, used)
    ensures code !in used && IsCode(code, alphabet)
    ensures start + LENGTH <= p && code == CodeAt(tape, p - LENGTH)
  {
    ghost var goal: nat :| NthCode(tape, start, goal) !in used;
    ghost var draws: nat := 0;
    code := CodeAt(tape, start);
    p := start + LENGTH;
    while code in used
      invariant draws <= goal && code == NthCode(tape, start, draws) && p == start + LENGTH * draws + LENGTH
      decreases goal - draws
    {
      code := CodeAt(tape, p);
      p := p + LENGTH;
      draws := draws + 1;
    }
    CodeIsWellFormed(tape, start + LENGTH * draws, alphabet);
  }

  /** Give every restaurant a code no other restaurant has. The loop ends because
      the tape keeps reaching new codes. */
  method BackfillStoreIdentity(restaurants: seq<int>, tape: Tape) returns (codes: map<int, string>)
    requires forall i, j :: 0 <= i < j < |restaurants| ==> restaurants[i] != restaurants[j]
    requires Draws(tape, ALPHABET) && KeepsReachingNewCodes(tape, |restaurants|)
    ensures forall id :: id in codes <==> id in restaurants
    ensures forall a, b :: a in codes && b in codes && codes[a] == codes[b] ==> a == b
    ensures forall id :: id in codes ==> IsCode(codes[id], ALPHABET)
  {
    codes := map[];
    var used: set<string> := {};
    var p: nat := 0;
    for r := 0 to |restaurants|
      invariant |used| == r
      invariant forall id :: id in codes <==> id in restaurants[..r]
      invariant forall id :: id in codes ==> codes[id] in used
      invariant forall a, b :: a in codes && b in codes && codes[a] == codes[b] ==> a == b
      invariant forall id :: id in codes ==> IsCode(codes[id], ALPHABET)
    {
      assert ReachesNewCode(tape, p, used);
      var code, next := DrawCode(tape, p, used, ALPHABET);
      p := next;
      used := used + {code};
      codes := codes[restaurants[r] := code];
    }
    assert restaurants[..|restaurants|] == restaurants;
  }
}
