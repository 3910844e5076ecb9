/** The availability engine of classroom_finder.py and
    api/classroom_finder.py: the exam schedule is joined with the seating
    plan on (course code, section), the room registry is read up to its
    `Locked:` line, and every time slot of the joined rows is mapped to the
    registry rooms that no joined row occupies in that slot, the slots
    sorted as strings. */
module Availability {
  import opened Text
  import opened Collections

  /** A row of the schedule table: date, time slot, course code, section. */
  datatype ScheduleRow = ScheduleRow(date: Option<string>, slot: string, code: string, section: string)

  /** A row of the seating table: room, course code, section. */
  datatype SeatRow = SeatRow(room: string, code: string, section: string)

  /** A row of the merged table. */
  datatype JoinedRow = JoinedRow(date: Option<string>, slot: string, code: string, section: string, room: string)

  predicate SameKey(a: ScheduleRow, b: SeatRow)
  {
    a.code == b.code && a.section == b.section
  }

  function Combine(a: ScheduleRow, b: SeatRow): JoinedRow
  {
    JoinedRow(a.date, a.slot, a.code, a.section, b.room)
  }

  // ---------------------------------------------------------------------
  // The inner join

  /** The seating rows that share `a`'s key, each merged with `a`. */
  function Partners(a: ScheduleRow, p: seq<SeatRow>): seq<JoinedRow>
  {
    if p == [] then []
    else (if SameKey(a, p[0]) then [Combine(a, p[0])] else []) + Partners(a, p[1..])
  }

  function PartnerLists(s: seq<ScheduleRow>, p: seq<SeatRow>): (ls: seq<seq<JoinedRow>>)
    ensures |ls| == |s| && forall i :: 0 <= i < |s| ==> ls[i] == Partners(s[i], p)
  {
    seq(|s|, i requires 0 <= i < |s| => Partners(s[i], p))
  }

  /** `pd.merge(df1, df2, on=['Course Code', 'Section'])`. */
  function Join(s: seq<ScheduleRow>, p: seq<SeatRow>): seq<JoinedRow>
  {
    Flatten(PartnerLists(s, p))
  }

  lemma {:induction false} PartnersMembers(a: ScheduleRow, p: seq<SeatRow>, j: JoinedRow)
    ensures j in Partners(a, p) <==> exists k :: 0 <= k < |p| && SameKey(a, p[k]) && j == Combine(a, p[k])
  {
    if p != [] {
      PartnersMembers(a, p[1..], j);
      assert forall k :: 1 <= k < |p| ==> p[1..][k - 1] == p[k];
      if j in Partners(a, p[1..]) {
        var k :| 0 <= k < |p[1..]| && SameKey(a, p[1..][k]) && j == Combine(a, p[1..][k]);
        assert p[k + 1] == p[1..][k];
      }
    }
  }

  /** A merged row is the merge of a schedule row and a seating row with
      equal course code and section, and every such pair is merged. */
  lemma JoinMembers(s: seq<ScheduleRow>, p: seq<SeatRow>, j: JoinedRow)
    ensures j in Join(s, p) <==>
              exists i, k :: 0 <= i < |s| && 0 <= k < |p| && SameKey(s[i], p[k]) && j == Combine(s[i], p[k])
  {
    FlattenMembers(PartnerLists(s, p), j);
    forall i | 0 <= i < |s| ensures j in Partners(s[i], p) <==> exists k :: 0 <= k < |p| && SameKey(s[i], p[k]) && j == Combine(s[i], p[k]) {
      PartnersMembers(s[i], p, j);
    }
  }

  /** With no pair of rows agreeing on the key, nothing is merged. */
  lemma JoinEmpty(s: seq<ScheduleRow>, p: seq<SeatRow>)
    requires forall i, k :: 0 <= i < |s| && 0 <= k < |p| ==> !SameKey(s[i], p[k])
    ensures Join(s, p) == []
  {
    if Join(s, p) != [] {
      JoinMembers(s, p, Join(s, p)[0]);
    }
  }

  // ---------------------------------------------------------------------
  // The room registry

  /** The index of the first line containing `Locked:`, or the number of
      lines when there is none. */
  function LockIndex(lines: seq<string>): (n: nat)
    ensures n <= |lines|
    ensures forall k :: 0 <= k < n ==> !Contains(lines[k], "Locked:")
    ensures n == |lines| || Contains(lines[n], "Locked:")
  {
    if lines == [] || Contains(lines[0], "Locked:") then 0 else 1 + LockIndex(lines[1..])
  }

  function StripAll(ls: seq<string>): (r: seq<string>)
    ensures |r| == |ls| && forall k :: 0 <= k < |ls| ==> r[k] == Strip(ls[k])
  {
    seq(|ls|, k requires 0 <= k < |ls| => Strip(ls[k]))
  }

  /** `[c.strip() for c in ls if c != '']`. */
  function NonBlank(ls: seq<string>): (r: seq<string>)
    ensures |r| <= |ls|
  {
    if ls == [] then []
    else (if ls[0] != "" then [Strip(ls[0])] else []) + NonBlank(ls[1..])
  }

  /** The registry: the lines before the first `Locked:` line, stripped,
      blank ones dropped, in file order. */
  function Registry(lines: seq<string>): (r: seq<string>)
    ensures |r| <= LockIndex(lines) <= |lines|
  {
    NonBlank(StripAll(lines[..LockIndex(lines)]))
  }

  /** The reading loop: stripped lines up to the first `Locked:` line. */
  method ReadLines(lines: seq<string>) returns (stripped: seq<string>)
    ensures stripped == StripAll(lines[..LockIndex(lines)])
  {
    stripped := [];
    var i := 0;
    while i < |lines|
      invariant i <= LockIndex(lines)
      invariant stripped == StripAll(lines[..i])
    {
      if Contains(lines[i], "Locked:") {
        assert i == LockIndex(lines);
        break;
      }
      assert i < LockIndex(lines);
      StripAllSnoc(lines, i);
      stripped := stripped + [Strip(lines[i])];
      i := i + 1;
    }
  }

  lemma StripAllSnoc(lines: seq<string>, i: nat)
    requires i < |lines|
    ensures StripAll(lines[..i + 1]) == StripAll(lines[..i]) + [Strip(lines[i])]
  {
  }

  method ReadRegistry(lines: seq<string>) returns (rooms: seq<string>)
    ensures rooms == Registry(lines)
  {
    var stripped := ReadLines(lines);
    rooms := NonBlank(stripped);
  }

  lemma {:induction false} NonBlankMembers(ls: seq<string>, x: string)
    ensures x in NonBlank(ls) <==> exists y :: y in ls && y != "" && x == Strip(y)
  {
    if ls != [] {
      NonBlankMembers(ls[1..], x);
      assert ls == [ls[0]] + ls[1..];
    }
  }

  /** A registry room is the stripped text of a non-blank line before the
      first `Locked:` line, and every such line gives one. */
  lemma RegistryMembers(lines: seq<string>, x: string)
    ensures x in Registry(lines) <==>
              exists y :: y in lines[..LockIndex(lines)] && Strip(y) != "" && x == Strip(y)
  {
    if x in Registry(lines) {
      RegistryFromLine(lines, x);
    }
    if exists y :: y in lines[..LockIndex(lines)] && Strip(y) != "" && x == Strip(y) {
      var y :| y in lines[..LockIndex(lines)] && Strip(y) != "" && x == Strip(y);
      LineInRegistry(lines, y);
    }
  }

  lemma RegistryFromLine(lines: seq<string>, x: string)
    requires x in Registry(lines)
    ensures exists y :: y in lines[..LockIndex(lines)] && Strip(y) != "" && x == Strip(y)
  {
    var p := lines[..LockIndex(lines)];
    NonBlankMembers(StripAll(p), x);
    var z :| z in StripAll(p) && z != "" && x == Strip(z);
    var y := StrippedLine(p, z);
    StripIdempotent(y);
    assert y in p && Strip(y) != "" && x == Strip(y);
  }

  /** A line a stripped line comes from. */
  lemma StrippedLine(p: seq<string>, z: string) returns (y: string)
    requires z in StripAll(p)
    ensures y in p && z == Strip(y)
  {
    var k :| 0 <= k < |p| && StripAll(p)[k] == z;
    y := p[k];
  }

  lemma LineInRegistry(lines: seq<string>, y: string)
    requires y in lines[..LockIndex(lines)] && Strip(y) != ""
    ensures Strip(y) in Registry(lines)
  {
    var p := lines[..LockIndex(lines)];
    var ls := StripAll(p);
    var k :| 0 <= k < |p| && p[k] == y;
    assert ls[k] == Strip(y) && ls[k] in ls;
    StripIdempotent(y);
    NonBlankMembers(ls, Strip(y));
  }

  // ---------------------------------------------------------------------
  // Empty rooms per slot

  /** `merged_df['Time Slot'].unique()`: the slots in first-seen order. */
  function SlotsOf(joined: seq<JoinedRow>): (r: seq<string>)
    ensures |r| == |joined| && forall k :: 0 <= k < |joined| ==> r[k] == joined[k].slot
  {
    seq(|joined|, k requires 0 <= k < |joined| => joined[k].slot)
  }

  function UniqueSlots(joined: seq<JoinedRow>): seq<string>
  {
    Dedup(SlotsOf(joined))
  }

  /** `merged_df[['Room', 'Time Slot']].drop_duplicates()`. */
  function RoomSlots(joined: seq<JoinedRow>): seq<(string, string)>
  {
    Dedup(seq(|joined|, k requires 0 <= k < |joined| => (joined[k].room, joined[k].slot)))
  }

  /** The rooms of the (room, slot) pairs whose slot is `slot`. */
  function RoomsAt(pairs: seq<(string, string)>, slot: string): seq<string>
  {
    if pairs == [] then []
    else (if pairs[0].1 == slot then [pairs[0].0] else []) + RoomsAt(pairs[1..], slot)
  }

  function Occupied(joined: seq<JoinedRow>, slot: string): seq<string>
  {
    RoomsAt(RoomSlots(joined), slot)
  }

  lemma {:induction false} RoomsAtMembers(pairs: seq<(string, string)>, slot: string, room: string)
    ensures room in RoomsAt(pairs, slot) <==> (room, slot) in pairs
  {
    if pairs != [] {
      RoomsAtMembers(pairs[1..], slot, room);
      assert pairs == [pairs[0]] + pairs[1..];
    }
  }

  /** A room is occupied in a slot exactly when some merged row puts it
      there. */
  lemma OccupiedMembers(joined: seq<JoinedRow>, slot: string, room: string)
    ensures room in Occupied(joined, slot) <==>
              exists k :: 0 <= k < |joined| && joined[k].slot == slot && joined[k].room == room
  {
    RoomsAtMembers(RoomSlots(joined), slot, room);
    var ps := seq(|joined|, k requires 0 <= k < |joined| => (joined[k].room, joined[k].slot));
    assert forall k :: 0 <= k < |joined| ==> ps[k] == (joined[k].room, joined[k].slot);
  }

  /** `[c for c in registry if c not in occupied]`. */
  function EmptyIn(registry: seq<string>, occupied: seq<string>): (r: seq<string>)
    ensures |r| <= |registry|
    ensures forall x :: x in r ==> x in registry && x !in occupied
  {
    if registry == [] then []
    else (if registry[0] !in occupied then [registry[0]] else []) + EmptyIn(registry[1..], occupied)
  }

  /** `a` is `b` with some elements deleted. */
  predicate Subsequence<T(==)>(a: seq<T>, b: seq<T>)
    decreases |b|
  {
    if a == [] then true
    else if b == [] then false
    else (a[0] == b[0] && Subsequence(a[1..], b[1..])) || Subsequence(a, b[1..])
  }

  /** The empty rooms of a slot are the registry, in order, with the
      occupied rooms deleted. */
  lemma {:induction false} EmptyInKeepsOrder(registry: seq<string>, occupied: seq<string>)
    ensures Subsequence(EmptyIn(registry, occupied), registry)
  {
    if registry != [] {
      var rest := EmptyIn(registry[1..], occupied);
      EmptyInKeepsOrder(registry[1..], occupied);
      if registry[0] !in occupied {
        assert EmptyIn(registry, occupied) == [registry[0]] + rest;
        assert ([registry[0]] + rest)[1..] == rest;
      } else {
        assert EmptyIn(registry, occupied) == rest;
      }
    }
  }

  /** A room is listed exactly when it is a registry room and is not
      occupied; occupied rooms missing from the registry never appear. */
  lemma {:induction false} EmptyInMembers(registry: seq<string>, occupied: seq<string>, room: string)
    ensures room in EmptyIn(registry, occupied) <==> room in registry && room !in occupied
  {
    if registry != [] {
      EmptyInMembers(registry[1..], occupied, room);
      assert registry == [registry[0]] + registry[1..];
    }
  }

  /** The empty-room lists of the given slots. */
  function SlotMap(slots: seq<string>, joined: seq<JoinedRow>, registry: seq<string>): map<string, seq<string>>
  {
    map s | s in slots :: EmptyIn(registry, Occupied(joined, s))
  }

  /** The loop over the unique slots, filling the dictionary. */
  method FillSlots(slots: seq<string>, joined: seq<JoinedRow>, registry: seq<string>)
    returns (m: map<string, seq<string>>)
    ensures m == SlotMap(slots, joined, registry)
  {
    m := map[];
    var pairs := RoomSlots(joined);
    var i := 0;
    while i < |slots|
      invariant i <= |slots|
      invariant forall s :: s in m <==> s in slots[..i]
      invariant forall s :: s in m ==> m[s] == EmptyIn(registry, Occupied(joined, s))
    {
      var time := slots[i];
      var occupied := RoomsAt(pairs, time);
      var empty := EmptyIn(registry, occupied);
      m := m[time := empty];
      assert slots[..i + 1] == slots[..i] + [time];
      i := i + 1;
    }
    assert slots[..i] == slots;
  }

  // ---------------------------------------------------------------------
  // Sorting the slots

  /** Sorted by Python's string comparison. */
  predicate Sorted(s: seq<string>)
  {
    forall i, j :: 0 <= i < j < |s| ==> !LexLess(s[j], s[i])
  }

  function InsertSorted(x: string, s: seq<string>): (r: seq<string>)
    ensures multiset(r) == multiset(s) + multiset{x}
    ensures Sorted(s) ==> Sorted(r)
  {
    if s == [] then [x]
    else if LexLess(x, s[0]) then
      InsertFront(x, s);
      [x] + s
    else
      var rest := InsertSorted(x, s[1..]);
      InsertAfterFirst(x, s, rest);
      [s[0]] + rest
  }

  lemma InsertFront(x: string, s: seq<string>)
    requires s != [] && LexLess(x, s[0])
    ensures multiset([x] + s) == multiset(s) + multiset{x}
    ensures Sorted(s) ==> Sorted([x] + s)
  {
    if Sorted(s) {
      BelowFirst(x, s);
      SortedCons(x, s);
    }
  }

  lemma InsertAfterFirst(x: string, s: seq<string>, rest: seq<string>)
    requires s != [] && !LexLess(x, s[0])
    requires multiset(rest) == multiset(s[1..]) + multiset{x}
    requires Sorted(s[1..]) ==> Sorted(rest)
    ensures multiset([s[0]] + rest) == multiset(s) + multiset{x}
    ensures Sorted(s) ==> Sorted([s[0]] + rest)
  {
    assert s == [s[0]] + s[1..];
    if Sorted(s) {
      assert Sorted(s[1..]) by {
        forall i, j | 0 <= i < j < |s[1..]| ensures !LexLess(s[1..][j], s[1..][i]) {
          assert s[1..][i] == s[i + 1] && s[1..][j] == s[j + 1];
        }
      }
      forall y | y in rest ensures !LexLess(y, s[0]) {
        assert y in multiset(rest);
        if y != x {
          assert y in multiset(s[1..]);
          var k :| 0 <= k < |s[1..]| && s[1..][k] == y;
          assert s[k + 1] == y;
        }
      }
      SortedCons(s[0], rest);
    }
  }

  /** An element below the first of a sorted list is below all of it. */
  lemma BelowFirst(x: string, s: seq<string>)
    requires Sorted(s) && s != [] && LexLess(x, s[0])
    ensures forall y :: y in s ==> !LexLess(y, x)
  {
    forall y | y in s ensures !LexLess(y, x) {
      if LexLess(y, x) {
        LexTransitive(y, x, s[0]);
        var k :| 0 <= k < |s| && s[k] == y;
        if k == 0 {
          LexIrreflexive(y);
        }
      }
    }
  }

  /** Putting an element no later than any of `s` in front of a sorted
      `s` keeps it sorted. */
  lemma SortedCons(x: string, s: seq<string>)
    requires Sorted(s) && forall y :: y in s ==> !LexLess(y, x)
    ensures Sorted([x] + s)
  {
    var r := [x] + s;
    forall i, j | 0 <= i < j < |r| ensures !LexLess(r[j], r[i]) {
      if i == 0 {
        assert r[j] == s[j - 1] && r[j] in s;
      } else {
        assert r[i] == s[i - 1] && r[j] == s[j - 1];
      }
    }
  }

  /** `sorted(...)` on the slot names. */
  function SortStrings(s: seq<string>): (r: seq<string>)
    ensures multiset(r) == multiset(s)
    ensures Sorted(r)
  {
    if s == [] then [] else
      assert s == [s[0]] + s[1..];
      InsertSorted(s[0], SortStrings(s[1..]))
  }

  /** Sorting distinct names orders them strictly. */
  lemma SortStrictly(s: seq<string>)
    requires Distinct(s)
    ensures Distinct(SortStrings(s))
    ensures forall i, j :: 0 <= i < j < |SortStrings(s)| ==> LexLess(SortStrings(s)[i], SortStrings(s)[j])
  {
    var r := SortStrings(s);
    forall i, j | 0 <= i < j < |r| ensures r[i] != r[j] {
      if r[i] == r[j] {
        DistinctCount(s, r[i]);
        TwoOccurrences(r, i, j);
      }
    }
    forall i, j | 0 <= i < j < |r| ensures LexLess(r[i], r[j]) {
      LexTotal(r[i], r[j]);
    }
  }

  lemma TwoOccurrences<T>(r: seq<T>, i: nat, j: nat)
    requires i < j < |r| && r[i] == r[j]
    ensures multiset(r)[r[i]] >= 2
  {
    assert r == r[..j] + r[j..];
    assert r[i] in r[..j];
    assert r[j..] == [r[j]] + r[j + 1..];
  }

  lemma {:induction false} DistinctCount<T>(s: seq<T>, x: T)
    requires Distinct(s)
    ensures multiset(s)[x] <= 1
  {
    if s != [] {
      DistinctCount(s[1..], x);
      assert s == [s[0]] + s[1..];
      assert s[0] !in s[1..];
    }
  }

  // ---------------------------------------------------------------------
  // The whole engine

  /** The result: the slots in sorted order, and the dictionary. */
  datatype EmptyRooms = EmptyRooms(slots: seq<string>, rooms: map<string, seq<string>>)

  /** What `find_empty_classrooms` computes from the two tables and the
      registry file's lines. */
  function Expected(schedule: seq<ScheduleRow>, seating: seq<SeatRow>, lines: seq<string>): EmptyRooms
  {
    var joined := Join(schedule, seating);
    EmptyRooms(SortStrings(UniqueSlots(joined)), SlotMap(UniqueSlots(joined), joined, Registry(lines)))
  }

  /** `find_empty_classrooms`. */
  method FindEmptyClassrooms(schedule: seq<ScheduleRow>, seating: seq<SeatRow>, lines: seq<string>)
    returns (result: EmptyRooms)
    ensures result == Expected(schedule, seating, lines)
  {
    var joined := Join(schedule, seating);
    var registry := ReadRegistry(lines);
    var times := UniqueSlots(joined);
    var rooms := FillSlots(times, joined, registry);
    result := EmptyRooms(SortStrings(times), rooms);
  }

  /** The keys are exactly the slots of the merged rows, listed once each
      in strictly increasing string order; a slot without merged rows has
      no key. */
  lemma ExpectedSlots(schedule: seq<ScheduleRow>, seating: seq<SeatRow>, lines: seq<string>, s: string)
    ensures var e := Expected(schedule, seating, lines);
      && (s in e.rooms <==> exists j :: j in Join(schedule, seating) && j.slot == s)
      && (s in e.slots <==> s in e.rooms)
      && Distinct(e.slots)
      && forall i, k :: 0 <= i < k < |e.slots| ==> LexLess(e.slots[i], e.slots[k])
  {
    var joined := Join(schedule, seating);
    var u := UniqueSlots(joined);
    SortStrictly(u);
    assert s in SortStrings(u) <==> s in u by {
      assert s in multiset(SortStrings(u)) <==> s in multiset(u);
    }
    if s in SlotsOf(joined) {
      var k :| 0 <= k < |joined| && SlotsOf(joined)[k] == s;
      assert joined[k] in joined;
    }
  }

  /** A room is listed for a slot exactly when it is a registry room that
      no merged row of that slot occupies; the list keeps registry order. */
  lemma ExpectedRooms(schedule: seq<ScheduleRow>, seating: seq<SeatRow>, lines: seq<string>, s: string, room: string)
    requires s in Expected(schedule, seating, lines).rooms
    ensures var e := Expected(schedule, seating, lines);
      && Subsequence(e.rooms[s], Registry(lines))
      && (room in e.rooms[s] <==>
           room in Registry(lines) && !exists j :: j in Join(schedule, seating) && j.slot == s && j.room == room)
  {
    var joined := Join(schedule, seating);
    EmptyInKeepsOrder(Registry(lines), Occupied(joined, s));
    EmptyInMembers(Registry(lines), Occupied(joined, s), room);
    OccupiedMembers(joined, s, room);
  }

  /** When no schedule row shares a key with a seating row, the result
      has no slot at all. */
  lemma NoMatchNoSlots(schedule: seq<ScheduleRow>, seating: seq<SeatRow>, lines: seq<string>)
    requires forall i, k :: 0 <= i < |schedule| && 0 <= k < |seating| ==> !SameKey(schedule[i], seating[k])
    ensures Expected(schedule, seating, lines).slots == []
    ensures Expected(schedule, seating, lines).rooms == map[]
  {
    JoinEmpty(schedule, seating);
    assert SlotsOf([]) == [];
  }
}
