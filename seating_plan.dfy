/** The seating-plan record builders: the matches the room pattern finds
    in the plan's text are grouped per room into (course code, normalised
    section) allocations, without repetition, and flattened into CSV rows.
    Three variants exist; they differ in how a room is named and how
    repetitions are detected. */
module SeatingPlan {
  import opened Collections
  import opened Sections

  /** One match of the pattern with a room-or-lab alternative: course
      code, raw section, the `Room No.` group and the lab-name group (an
      empty string when that alternative did not take part). */
  datatype SeatMatch = SeatMatch(code: string, section: string, roomNo: string, labName: string)

  /** One allocation stored under a room. */
  datatype Allocation = Allocation(code: string, section: string)

  /** A dictionary from room to allocations, with its insertion order. */
  datatype RoomTable = RoomTable(order: seq<string>, lists: map<string, seq<Allocation>>)

  /** The keys are listed once each, in `order`, and nothing else. */
  ghost predicate WellFormed(t: RoomTable)
  {
    && Distinct(t.order)
    && forall r :: r in t.order <==> r in t.lists
  }

  /** A match names no room when both groups are empty; it is skipped. */
  predicate Skipped(m: SeatMatch) { m.roomNo == "" && m.labName == "" }

  /** The `Room No.` group when non-empty, else the lab name. */
  function RoomOf(m: SeatMatch): string
  {
    if m.roomNo != "" then m.roomNo else m.labName
  }

  function AllocationOf(m: SeatMatch): Allocation
  {
    Allocation(m.code, Normalize(m.section))
  }

  /** The rooms of the matches that are not skipped, in match order. */
  function Rooms(ms: seq<SeatMatch>): seq<string>
  {
    if ms == [] then []
    else Rooms(ms[..|ms| - 1]) + (if Skipped(ms[|ms| - 1]) then [] else [RoomOf(ms[|ms| - 1])])
  }

  /** The allocations of the matches that are not skipped and name room
      `r`, in match order. */
  function AllocationsIn(ms: seq<SeatMatch>, r: string): seq<Allocation>
  {
    if ms == [] then []
    else
      var m := ms[|ms| - 1];
      AllocationsIn(ms[..|ms| - 1], r) + (if !Skipped(m) && RoomOf(m) == r then [AllocationOf(m)] else [])
  }

  /** The intended result: the rooms in first-seen order, each mapped to
      its distinct allocations in first-seen order. */
  function Grouped(ms: seq<SeatMatch>): RoomTable
  {
    RoomTable(Dedup(Rooms(ms)), map r | r in Rooms(ms) :: Dedup(AllocationsIn(ms, r)))
  }

  lemma RoomsSnoc(ms: seq<SeatMatch>, i: nat)
    requires i < |ms|
    ensures Rooms(ms[..i + 1]) == Rooms(ms[..i]) + (if Skipped(ms[i]) then [] else [RoomOf(ms[i])])
  {
    assert ms[..i + 1][..i] == ms[..i];
  }

  lemma AllocationsInSnoc(ms: seq<SeatMatch>, i: nat, r: string)
    requires i < |ms|
    ensures AllocationsIn(ms[..i + 1], r) == AllocationsIn(ms[..i], r)
              + (if !Skipped(ms[i]) && RoomOf(ms[i]) == r then [AllocationOf(ms[i])] else [])
  {
    assert ms[..i + 1][..i] == ms[..i];
  }

  /** A room has allocations exactly when some match names it. */
  lemma {:induction false} AllocationsInRooms(ms: seq<SeatMatch>, r: string)
    ensures AllocationsIn(ms, r) != [] <==> r in Rooms(ms)
  {
    if ms != [] {
      AllocationsInRooms(ms[..|ms| - 1], r);
    }
  }

  /** The dictionary after one allocation is offered for `room`: the room
      is created (at the end of the order) when it is new, and the
      allocation is appended when the room does not hold it yet. */
  function Insert(t: RoomTable, room: string, a: Allocation): RoomTable
  {
    if room !in t.lists then RoomTable(t.order + [room], t.lists[room := [a]])
    else if a in t.lists[room] then t
    else RoomTable(t.order, t.lists[room := t.lists[room] + [a]])
  }

  /** One offer: the room gets a key (appended to the order when new), its
      list holds the allocation afterwards and gains at most that one entry
      at its end, an allocation already held changes nothing, and every
      other room is untouched. */
  lemma InsertEffect(t: RoomTable, room: string, a: Allocation)
    ensures var t' := Insert(t, room, a);
      && room in t'.lists && a in t'.lists[room]
      && t'.order == (if room in t.lists then t.order else t.order + [room])
      && (room in t.lists ==> t.lists[room] <= t'.lists[room] && |t'.lists[room]| <= |t.lists[room]| + 1)
      && (room !in t.lists ==> t'.lists[room] == [a])
      && (room in t.lists && a in t.lists[room] ==> t' == t)
      && forall r :: r != room ==> (r in t'.lists <==> r in t.lists) && (r in t.lists ==> t'.lists[r] == t.lists[r])
  {
  }

  /** `t` is the grouping of the first `i` matches. */
  ghost predicate GroupedUpTo(ms: seq<SeatMatch>, i: nat, t: RoomTable)
  {
    i <= |ms| && t == Grouped(ms[..i])
  }

  lemma GroupedUpToStep(ms: seq<SeatMatch>, i: nat, t: RoomTable)
    requires i < |ms| && GroupedUpTo(ms, i, t)
    ensures GroupedUpTo(ms, i + 1, if Skipped(ms[i]) then t else Insert(t, RoomOf(ms[i]), AllocationOf(ms[i])))
  {
    if Skipped(ms[i]) {
      SkippedStep(ms, i);
    } else {
      KeptStep(ms, i);
    }
  }

  /** A skipped match leaves the grouping as it was. */
  lemma SkippedStep(ms: seq<SeatMatch>, i: nat)
    requires i < |ms| && Skipped(ms[i])
    ensures Grouped(ms[..i + 1]) == Grouped(ms[..i])
  {
    var g, g' := Grouped(ms[..i]), Grouped(ms[..i + 1]);
    SkippedRooms(ms, i);
    forall r | r in g.lists ensures g'.lists[r] == g.lists[r] {
      SkippedAllocations(ms, i, r);
    }
    assert g'.lists == g.lists;
  }

  lemma SkippedRooms(ms: seq<SeatMatch>, i: nat)
    requires i < |ms| && Skipped(ms[i])
    ensures Rooms(ms[..i + 1]) == Rooms(ms[..i])
  {
    RoomsSnoc(ms, i);
  }

  lemma SkippedAllocations(ms: seq<SeatMatch>, i: nat, r: string)
    requires i < |ms| && Skipped(ms[i])
    ensures AllocationsIn(ms[..i + 1], r) == AllocationsIn(ms[..i], r)
  {
    AllocationsInSnoc(ms, i, r);
  }

  /** A match that names a room inserts its allocation into the grouping. */
  lemma KeptStep(ms: seq<SeatMatch>, i: nat)
    requires i < |ms| && !Skipped(ms[i])
    ensures Grouped(ms[..i + 1]) == Insert(Grouped(ms[..i]), RoomOf(ms[i]), AllocationOf(ms[i]))
  {
    KeptOrder(ms, i);
    KeptLists(ms, i);
  }

  lemma KeptOrder(ms: seq<SeatMatch>, i: nat)
    requires i < |ms| && !Skipped(ms[i])
    ensures Insert(Grouped(ms[..i]), RoomOf(ms[i]), AllocationOf(ms[i])).order == Grouped(ms[..i + 1]).order
  {
    var room := RoomOf(ms[i]);
    var rooms := Rooms(ms[..i]);
    RoomsSnoc(ms, i);
    DedupSnoc(rooms, room);
    assert room in Grouped(ms[..i]).lists <==> room in rooms;
  }

  lemma KeptLists(ms: seq<SeatMatch>, i: nat)
    requires i < |ms| && !Skipped(ms[i])
    ensures Insert(Grouped(ms[..i]), RoomOf(ms[i]), AllocationOf(ms[i])).lists == Grouped(ms[..i + 1]).lists
  {
    var t' := Insert(Grouped(ms[..i]), RoomOf(ms[i]), AllocationOf(ms[i]));
    var g' := Grouped(ms[..i + 1]);
    KeptKeys(ms, i);
    forall r | r in t'.lists ensures t'.lists[r] == g'.lists[r] {
      KeptList(ms, i, r);
    }
  }

  lemma KeptKeys(ms: seq<SeatMatch>, i: nat)
    requires i < |ms| && !Skipped(ms[i])
    ensures forall r :: r in Insert(Grouped(ms[..i]), RoomOf(ms[i]), AllocationOf(ms[i])).lists <==> r in Grouped(ms[..i + 1]).lists
  {
    var room := RoomOf(ms[i]);
    var g := Grouped(ms[..i]);
    var t' := Insert(g, room, AllocationOf(ms[i]));
    RoomsSnoc(ms, i);
    assert forall r :: r in t'.lists <==> r in g.lists || r == room;
    assert forall r :: r in Rooms(ms[..i + 1]) <==> r in Rooms(ms[..i]) || r == room;
  }

  lemma KeptList(ms: seq<SeatMatch>, i: nat, r: string)
    requires i < |ms| && !Skipped(ms[i])
    requires r in Insert(Grouped(ms[..i]), RoomOf(ms[i]), AllocationOf(ms[i])).lists
    ensures Insert(Grouped(ms[..i]), RoomOf(ms[i]), AllocationOf(ms[i])).lists[r] == Dedup(AllocationsIn(ms[..i + 1], r))
  {
    if r == RoomOf(ms[i]) {
      KeptListOfRoom(ms, i);
    } else {
      KeptListOther(ms, i, r);
    }
  }

  /** The lists of the other rooms are unchanged. */
  lemma KeptListOther(ms: seq<SeatMatch>, i: nat, r: string)
    requires i < |ms| && !Skipped(ms[i]) && r != RoomOf(ms[i])
    requires r in Insert(Grouped(ms[..i]), RoomOf(ms[i]), AllocationOf(ms[i])).lists
    ensures Insert(Grouped(ms[..i]), RoomOf(ms[i]), AllocationOf(ms[i])).lists[r] == Dedup(AllocationsIn(ms[..i + 1], r))
  {
    AllocationsInSnoc(ms, i, r);
    assert AllocationsIn(ms[..i + 1], r) == AllocationsIn(ms[..i], r);
  }

  /** The list of the room the match names gains its allocation once. */
  lemma KeptListOfRoom(ms: seq<SeatMatch>, i: nat)
    requires i < |ms| && !Skipped(ms[i])
    ensures Insert(Grouped(ms[..i]), RoomOf(ms[i]), AllocationOf(ms[i])).lists[RoomOf(ms[i])]
              == Dedup(AllocationsIn(ms[..i + 1], RoomOf(ms[i])))
  {
    var room, a := RoomOf(ms[i]), AllocationOf(ms[i]);
    var p := AllocationsIn(ms[..i], room);
    AllocationsInSnoc(ms, i, room);
    assert AllocationsIn(ms[..i + 1], room) == p + [a];
    AllocationsInRooms(ms[..i], room);
    DedupSnoc(p, a);
    if room !in Rooms(ms[..i]) {
      assert p == [];
    }
  }

  lemma GroupedUpToAll(ms: seq<SeatMatch>, t: RoomTable)
    requires GroupedUpTo(ms, |ms|, t)
    ensures t == Grouped(ms)
  {
    assert ms[..|ms|] == ms;
  }

  /** The seen set holds exactly the triples the dictionary stores. */
  ghost predicate SeenMatches(seen: set<(string, string, string)>, t: RoomTable)
  {
    forall r, c, s :: (r, c, s) in seen <==> r in t.lists && Allocation(c, s) in t.lists[r]
  }

  /** The body of the match loop of api/pdf_processor.py for one match. */
  method OfferSeen(t: RoomTable, seen: set<(string, string, string)>, m: SeatMatch)
    returns (t': RoomTable, seen': set<(string, string, string)>)
    requires SeenMatches(seen, t)
    ensures t' == if Skipped(m) then t else Insert(t, RoomOf(m), AllocationOf(m))
    ensures SeenMatches(seen', t')
  {
    t', seen' := t, seen;
    var room := if m.roomNo != "" then m.roomNo else m.labName;
    if room != "" {
      var normalized := Normalize(m.section);
      var key := (room, m.code, normalized);
      if key !in seen {
        seen' := seen + {key};
        if room in t.lists {
          t' := RoomTable(t.order, t.lists[room := t.lists[room] + [Allocation(m.code, normalized)]]);
        } else {
          t' := RoomTable(t.order + [room], t.lists[room := [Allocation(m.code, normalized)]]);
        }
      }
    }
  }

  /** `extract_rooms_courses_from_text` of api/pdf_processor.py: a set of
      seen (room, code, section) triples decides what is appended. */
  method ExtractRoomsSeen(ms: seq<SeatMatch>) returns (t: RoomTable)
    ensures t == Grouped(ms)
  {
    t := RoomTable([], map[]);
    var seen: set<(string, string, string)> := {};
    var i := 0;
    while i < |ms|
      invariant GroupedUpTo(ms, i, t)
      invariant SeenMatches(seen, t)
    {
      GroupedUpToStep(ms, i, t);
      t, seen := OfferSeen(t, seen, ms[i]);
      i := i + 1;
    }
    GroupedUpToAll(ms, t);
  }

  /** The body of the match loop of pdf_processor.py for one match. */
  method OfferListed(t: RoomTable, m: SeatMatch) returns (t': RoomTable)
    ensures t' == if Skipped(m) then t else Insert(t, RoomOf(m), AllocationOf(m))
  {
    t' := t;
    var room := "";
    if m.roomNo != "" {
      room := m.roomNo;
    } else if m.labName != "" {
      room := m.labName;
    }
    if room != "" {
      var normalized := Normalize(m.section);
      if room !in t'.lists {
        t' := RoomTable(t'.order + [room], t'.lists[room := []]);
      }
      if Allocation(m.code, normalized) !in t'.lists[room] {
        t' := RoomTable(t'.order, t'.lists[room := t'.lists[room] + [Allocation(m.code, normalized)]]);
      }
      if room !in t.lists {
        assert [] + [Allocation(m.code, normalized)] == [Allocation(m.code, normalized)];
        assert t'.lists == t.lists[room := [Allocation(m.code, normalized)]];
      }
    }
  }

  /** `extract_rooms_courses_from_text` of pdf_processor.py: the room's
      own list is searched for the allocation before it is appended. */
  method ExtractRoomsListed(ms: seq<SeatMatch>) returns (t: RoomTable)
    ensures t == Grouped(ms)
  {
    t := RoomTable([], map[]);
    var i := 0;
    while i < |ms|
      invariant GroupedUpTo(ms, i, t)
    {
      GroupedUpToStep(ms, i, t);
      t := OfferListed(t, ms[i]);
      i := i + 1;
    }
    GroupedUpToAll(ms, t);
  }

  /** A room is listed exactly when some match that is not skipped names it. */
  lemma {:induction false} RoomsMembers(ms: seq<SeatMatch>, r: string)
    ensures r in Rooms(ms) <==> exists k :: 0 <= k < |ms| && !Skipped(ms[k]) && RoomOf(ms[k]) == r
  {
    if ms != [] {
      var p := ms[..|ms| - 1];
      RoomsMembers(p, r);
      assert forall k :: 0 <= k < |p| ==> p[k] == ms[k];
    }
  }

  /** An allocation is listed for `r` exactly when some match that is not
      skipped names `r` and yields it. */
  lemma {:induction false} AllocationsInMembers(ms: seq<SeatMatch>, r: string, a: Allocation)
    ensures a in AllocationsIn(ms, r) <==>
              exists k :: 0 <= k < |ms| && !Skipped(ms[k]) && RoomOf(ms[k]) == r && AllocationOf(ms[k]) == a
  {
    if ms != [] {
      var p := ms[..|ms| - 1];
      AllocationsInMembers(p, r, a);
      assert forall k :: 0 <= k < |p| ==> p[k] == ms[k];
    }
  }

  /** The keys are the rooms of the matches that are not skipped, each
      listed once in `order`; a skipped match creates no key. Every list is
      non-empty and holds no allocation twice, so no (room, code, section)
      triple is stored twice. */
  lemma GroupedShape(ms: seq<SeatMatch>)
    ensures WellFormed(Grouped(ms))
    ensures forall r :: r in Grouped(ms).lists <==>
              exists k :: 0 <= k < |ms| && !Skipped(ms[k]) && RoomOf(ms[k]) == r
    ensures forall r :: r in Grouped(ms).lists ==> Grouped(ms).lists[r] != [] && Distinct(Grouped(ms).lists[r])
  {
    forall r ensures r in Rooms(ms) <==> exists k :: 0 <= k < |ms| && !Skipped(ms[k]) && RoomOf(ms[k]) == r {
      RoomsMembers(ms, r);
    }
    forall r | r in Rooms(ms) ensures AllocationsIn(ms, r) != [] {
      AllocationsInRooms(ms, r);
    }
  }

  /** A (room, code, section) triple is stored exactly when some match that
      is not skipped yields it; so every stored section is the normalised
      section of a match. */
  lemma GroupedStores(ms: seq<SeatMatch>, r: string, a: Allocation)
    ensures (r in Grouped(ms).lists && a in Grouped(ms).lists[r]) <==>
              exists k :: 0 <= k < |ms| && !Skipped(ms[k]) && RoomOf(ms[k]) == r && AllocationOf(ms[k]) == a
  {
    AllocationsInMembers(ms, r, a);
    AllocationsInRooms(ms, r);
  }

  /** A room's allocations keep the order in which the matches first yield
      them. */
  lemma GroupedFirstSeen(ms: seq<SeatMatch>, r: string, i: nat, j: nat)
    requires r in Grouped(ms).lists && i < j < |Grouped(ms).lists[r]|
    ensures var l := Grouped(ms).lists[r];
      l[i] in AllocationsIn(ms, r) && l[j] in AllocationsIn(ms, r) &&
      FirstIndex(AllocationsIn(ms, r), l[i]) < FirstIndex(AllocationsIn(ms, r), l[j])
  {
    DedupKeepsFirstSeenOrder(AllocationsIn(ms, r), i, j);
  }

  // ---------------------------------------------------------------------
  // pdf_Extractor.py: the pattern only knows `Room No.`, so every match
  // names a room, and the repetition check compares the raw section.

  datatype RoomMatch = RoomMatch(code: string, section: string, room: string)

  /** The dictionary after one match, as pdf_Extractor.py:67-72 is
      written: the room's key is created if absent, and the normalised
      allocation is appended unless the room holds the raw one. */
  function ExtractorStep(t: RoomTable, m: RoomMatch): RoomTable
  {
    var l := if m.room in t.lists then t.lists[m.room] else [];
    var order := if m.room in t.lists then t.order else t.order + [m.room];
    var l' := if Allocation(m.code, m.section) in l then l else l + [Allocation(m.code, Normalize(m.section))];
    RoomTable(order, t.lists[m.room := l'])
  }

  /** One match of the as-written loop: the room gets a key (appended to
      the order when new); the list gains the normalised allocation at its
      end exactly when it does not hold the raw one; every other room is
      untouched. */
  lemma ExtractorStepEffect(t: RoomTable, m: RoomMatch)
    ensures var t' := ExtractorStep(t, m);
      var l := if m.room in t.lists then t.lists[m.room] else [];
      && m.room in t'.lists
      && t'.order == (if m.room in t.lists then t.order else t.order + [m.room])
      && (Allocation(m.code, m.section) in l ==> t'.lists[m.room] == l)
      && (Allocation(m.code, m.section) !in l ==> t'.lists[m.room] == l + [Allocation(m.code, Normalize(m.section))])
      && forall r :: r != m.room ==> (r in t'.lists <==> r in t.lists) && (r in t.lists ==> t'.lists[r] == t.lists[r])
  {
  }

  function ExtractorFold(ms: seq<RoomMatch>): RoomTable
  {
    if ms == [] then RoomTable([], map[])
    else ExtractorStep(ExtractorFold(ms[..|ms| - 1]), ms[|ms| - 1])
  }

  lemma ExtractorFoldSnoc(ms: seq<RoomMatch>, i: nat)
    requires i < |ms|
    ensures ExtractorFold(ms[..i + 1]) == ExtractorStep(ExtractorFold(ms[..i]), ms[i])
  {
    assert ms[..i + 1][..i] == ms[..i];
  }

  /** The body of the match loop of pdf_Extractor.py for one match. */
  method OfferRaw(t: RoomTable, m: RoomMatch) returns (t': RoomTable)
    ensures t' == ExtractorStep(t, m)
  {
    t' := t;
    if m.room !in t'.lists {
      t' := RoomTable(t'.order + [m.room], t'.lists[m.room := []]);
    }
    if Allocation(m.code, m.section) !in t'.lists[m.room] {
      t' := RoomTable(t'.order, t'.lists[m.room := t'.lists[m.room] + [Allocation(m.code, Normalize(m.section))]]);
    }
    assert t'.lists == ExtractorStep(t, m).lists;
  }

  /** `extract_rooms_courses_from_text` of pdf_Extractor.py, as written. */
  method ExtractRoomNumbers(ms: seq<RoomMatch>) returns (t: RoomTable)
    ensures t == ExtractorFold(ms)
  {
    t := RoomTable([], map[]);
    var i := 0;
    while i < |ms|
      invariant i <= |ms| && t == ExtractorFold(ms[..i])
    {
      ExtractorFoldSnoc(ms, i);
      t := OfferRaw(t, ms[i]);
      i := i + 1;
    }
    assert ms[..i] == ms;
  }

  /** The rooms of the matches, in match order. */
  function RoomNames(ms: seq<RoomMatch>): (rs: seq<string>)
    ensures |rs| == |ms| && forall k :: 0 <= k < |ms| ==> rs[k] == ms[k].room
  {
    seq(|ms|, k requires 0 <= k < |ms| => ms[k].room)
  }

  /** Every match creates its room's key, so the keys are the distinct
      rooms of all matches, in first-seen order. */
  lemma {:induction false} ExtractorKeys(ms: seq<RoomMatch>)
    ensures ExtractorFold(ms).order == Dedup(RoomNames(ms))
    ensures WellFormed(ExtractorFold(ms))
  {
    if ms != [] {
      var p := ms[..|ms| - 1];
      ExtractorKeys(p);
      assert RoomNames(ms) == RoomNames(p) + [ms[|ms| - 1].room];
      DedupSnoc(RoomNames(p), ms[|ms| - 1].room);
    }
  }

  /** Every stored allocation is the code and the normalised section of a
      match naming that room. */
  lemma {:induction false} ExtractorStoresNormalized(ms: seq<RoomMatch>, r: string, a: Allocation)
    requires r in ExtractorFold(ms).lists && a in ExtractorFold(ms).lists[r]
    ensures exists k :: 0 <= k < |ms| && ms[k].room == r && a == Allocation(ms[k].code, Normalize(ms[k].section))
  {
    var p := ms[..|ms| - 1];
    var m := ms[|ms| - 1];
    var t := ExtractorFold(p);
    assert forall k :: 0 <= k < |p| ==> p[k] == ms[k];
    if r in t.lists && a in t.lists[r] {
      ExtractorStoresNormalized(p, r, a);
    } else {
      assert r == m.room && a == Allocation(m.code, Normalize(m.section));
    }
  }

  /** The number of allocations stored under the rooms of `order`. */
  function Count(order: seq<string>, lists: map<string, seq<Allocation>>): nat
  {
    if order == [] then 0
    else
      var r := order[|order| - 1];
      Count(order[..|order| - 1], lists) + (if r in lists then |lists[r]| else 0)
  }

  function Total(t: RoomTable): nat { Count(t.order, t.lists) }

  lemma {:induction false} CountOthers(order: seq<string>, lists: map<string, seq<Allocation>>, r: string, l: seq<Allocation>)
    requires r !in order
    ensures Count(order, lists[r := l]) == Count(order, lists)
  {
    if order != [] {
      CountOthers(order[..|order| - 1], lists, r, l);
    }
  }

  lemma {:induction false} CountUpdate(order: seq<string>, lists: map<string, seq<Allocation>>, r: string, l: seq<Allocation>)
    requires Distinct(order) && r in order && r in lists
    ensures Count(order, lists[r := l]) == Count(order, lists) - |lists[r]| + |l|
  {
    var p := order[..|order| - 1];
    if order[|order| - 1] == r {
      assert r !in p;
      CountOthers(p, lists, r, l);
    } else {
      assert r in p;
      CountUpdate(p, lists, r, l);
    }
  }

  lemma CountSnoc(order: seq<string>, lists: map<string, seq<Allocation>>, r: string)
    ensures Count(order + [r], lists) == Count(order, lists) + (if r in lists then |lists[r]| else 0)
  {
    assert (order + [r])[..|order|] == order;
  }

  /** No more allocations are stored than there are matches. */
  lemma {:induction false} ExtractorTotal(ms: seq<RoomMatch>)
    ensures Total(ExtractorFold(ms)) <= |ms|
  {
    if ms != [] {
      var p := ms[..|ms| - 1];
      var m := ms[|ms| - 1];
      var t := ExtractorFold(p);
      var t' := ExtractorFold(ms);
      ExtractorTotal(p);
      ExtractorKeys(p);
      if m.room in t.lists {
        CountUpdate(t.order, t.lists, m.room, t'.lists[m.room]);
      } else {
        CountOthers(t.order, t.lists, m.room, t'.lists[m.room]);
        CountSnoc(t.order, t'.lists, m.room);
      }
    }
  }

  /** The room-only matches as matches of the room-or-lab pattern. */
  function Lift(ms: seq<RoomMatch>): (ls: seq<SeatMatch>)
    ensures |ls| == |ms|
    ensures forall k :: 0 <= k < |ms| ==> ls[k] == SeatMatch(ms[k].code, ms[k].section, ms[k].room, "")
  {
    seq(|ms|, k requires 0 <= k < |ms| => SeatMatch(ms[k].code, ms[k].section, ms[k].room, ""))
  }

  /** `Room No.` is matched by a non-empty run of word characters. */
  predicate RoomsNamed(ms: seq<RoomMatch>)
  {
    forall k :: 0 <= k < |ms| ==> ms[k].room != ""
  }

  /** When normalisation leaves every matched section unchanged, comparing
      the raw section is the same as comparing the normalised one, and the
      result is the duplicate-free grouping. */
  lemma {:induction false} ExtractorAgreesWhenFixed(ms: seq<RoomMatch>)
    requires RoomsNamed(ms)
    requires forall k :: 0 <= k < |ms| ==> Normalize(ms[k].section) == ms[k].section
    ensures ExtractorFold(ms) == Grouped(Lift(ms))
  {
    ExtractorPrefixGrouped(ms, |ms|);
    assert ms[..|ms|] == ms;
    GroupedUpToAll(Lift(ms), ExtractorFold(ms));
  }

  lemma {:induction false} ExtractorPrefixGrouped(ms: seq<RoomMatch>, n: nat)
    requires n <= |ms| && RoomsNamed(ms)
    requires forall k :: 0 <= k < |ms| ==> Normalize(ms[k].section) == ms[k].section
    ensures GroupedUpTo(Lift(ms), n, ExtractorFold(ms[..n]))
  {
    if n == 0 {
      assert ms[..0] == [];
    } else {
      var m := ms[n - 1];
      var t := ExtractorFold(ms[..n - 1]);
      ExtractorPrefixGrouped(ms, n - 1);
      GroupedUpToStep(Lift(ms), n - 1, t);
      ExtractorFoldSnoc(ms, n - 1);
      ExtractorStepIsInsert(t, m);
    }
  }

  lemma ExtractorStepIsInsert(t: RoomTable, m: RoomMatch)
    requires Normalize(m.section) == m.section
    ensures ExtractorStep(t, m) == Insert(t, m.room, Allocation(m.code, m.section))
  {
    if m.room !in t.lists {
      assert [] + [Allocation(m.code, m.section)] == [Allocation(m.code, m.section)];
    }
  }

  /** When normalisation changes a section, a repeated match is stored
      twice: `CS2001 BDS-5D` in `C-301`, matched twice, leaves `DS-D`
      twice in that room's list. */
  lemma ExtractorRepeatsNormalized()
    ensures var m := RoomMatch("CS2001", "BDS-5D", "C-301");
      var t := ExtractorFold([m, m]);
      "C-301" in t.lists &&
      t.lists["C-301"] == [Allocation("CS2001", "DS-D"), Allocation("CS2001", "DS-D")] &&
      !Distinct(t.lists["C-301"])
  {
    var m := RoomMatch("CS2001", "BDS-5D", "C-301");
    var a := Allocation("CS2001", "DS-D");
    NormalizeExamples();
    assert [m, m][..1] == [m];
    assert [m][..0] == [];
    var t1 := ExtractorFold([m]);
    assert ExtractorFold([m][..0]) == RoomTable([], map[]);
    assert t1 == ExtractorStep(RoomTable([], map[]), m);
    assert [] + [a] == [a];
    assert t1.lists["C-301"] == [a];
    assert Allocation("CS2001", "BDS-5D") !in t1.lists["C-301"];
    var t2 := ExtractorFold([m, m]);
    assert t2 == ExtractorStep(t1, m);
    assert t2.lists["C-301"] == [a] + [a];
    assert t2.lists["C-301"][0] == t2.lists["C-301"][1];
  }

  /** The body of the match loop with the repetition check on the
      normalised section, as in pdf_processor.py. */
  method OfferNormalized(t: RoomTable, m: RoomMatch) returns (t': RoomTable)
    ensures t' == Insert(t, m.room, Allocation(m.code, Normalize(m.section)))
  {
    t' := t;
    var normalized := Normalize(m.section);
    if m.room !in t'.lists {
      t' := RoomTable(t'.order + [m.room], t'.lists[m.room := []]);
    }
    if Allocation(m.code, normalized) !in t'.lists[m.room] {
      t' := RoomTable(t'.order, t'.lists[m.room := t'.lists[m.room] + [Allocation(m.code, normalized)]]);
    }
    if m.room !in t.lists {
      assert [] + [Allocation(m.code, normalized)] == [Allocation(m.code, normalized)];
      assert t'.lists == t.lists[m.room := [Allocation(m.code, normalized)]];
    }
  }

  /** pdf_Extractor.py's loop with the comparison it evidently intends:
      the result is the duplicate-free grouping of the matches. */
  method ExtractRoomNumbersIntended(ms: seq<RoomMatch>) returns (t: RoomTable)
    requires RoomsNamed(ms)
    ensures t == Grouped(Lift(ms))
  {
    t := RoomTable([], map[]);
    var i := 0;
    while i < |ms|
      invariant GroupedUpTo(Lift(ms), i, t)
    {
      IntendedStep(ms, i, t);
      t := OfferNormalized(t, ms[i]);
      i := i + 1;
    }
    GroupedUpToAll(Lift(ms), t);
  }

  lemma IntendedStep(ms: seq<RoomMatch>, i: nat, t: RoomTable)
    requires RoomsNamed(ms) && i < |ms| && GroupedUpTo(Lift(ms), i, t)
    ensures GroupedUpTo(Lift(ms), i + 1, Insert(t, ms[i].room, Allocation(ms[i].code, Normalize(ms[i].section))))
  {
    var m := Lift(ms)[i];
    assert !Skipped(m) && RoomOf(m) == ms[i].room;
    GroupedUpToStep(Lift(ms), i, t);
  }

  // ---------------------------------------------------------------------
  // CSV rows

  const Header: seq<string> := ["Room", "Course Code", "Section"]

  function ListOf(t: RoomTable, r: string): seq<Allocation>
  {
    if r in t.lists then t.lists[r] else []
  }

  /** One row per allocation of `room`. */
  function RoomRows(room: string, l: seq<Allocation>): (rows: seq<seq<string>>)
    ensures |rows| == |l|
    ensures forall j :: 0 <= j < |l| ==> rows[j] == [room, l[j].code, l[j].section]
  {
    seq(|l|, j requires 0 <= j < |l| => [room, l[j].code, l[j].section])
  }

  function RowGroups(t: RoomTable): (gs: seq<seq<seq<string>>>)
    ensures |gs| == |t.order|
    ensures forall i :: 0 <= i < |t.order| ==> gs[i] == RoomRows(t.order[i], ListOf(t, t.order[i]))
  {
    seq(|t.order|, i requires 0 <= i < |t.order| => RoomRows(t.order[i], ListOf(t, t.order[i])))
  }

  /** The rows of the CSV file: the header, then one row per stored
      allocation, rooms in dictionary order and each room's list in order. */
  function CsvRows(t: RoomTable): seq<seq<string>>
  {
    [Header] + Flatten(RowGroups(t))
  }

  /** One header row plus one row per stored allocation. */
  lemma CsvRowCount(t: RoomTable)
    ensures |CsvRows(t)| == 1 + Total(t)
  {
    RowsPrefixCount(t, |t.order|);
    assert RowGroups(t)[..|t.order|] == RowGroups(t);
    assert t.order[..|t.order|] == t.order;
  }

  /** The rows of the first `i` rooms number their allocations. */
  lemma {:induction false} RowsPrefixCount(t: RoomTable, i: nat)
    requires i <= |t.order|
    ensures |Flatten(RowGroups(t)[..i])| == Count(t.order[..i], t.lists)
    decreases i
  {
    if i > 0 {
      RowsPrefixCount(t, i - 1);
      FlattenPrefixSnoc(RowGroups(t), i - 1);
      assert t.order[..i][..i - 1] == t.order[..i - 1];
      assert t.order[..i][i - 1] == t.order[i - 1];
    }
  }

  /** A data row is written exactly for each (room, allocation) pair the
      dictionary stores. */
  lemma CsvRowMembers(t: RoomTable, row: seq<string>)
    requires WellFormed(t)
    ensures row in CsvRows(t)[1..] <==>
              exists r, a :: r in t.lists && a in t.lists[r] && row == [r, a.code, a.section]
  {
    assert CsvRows(t)[1..] == Flatten(RowGroups(t));
    FlattenMembers(RowGroups(t), row);
    if row in CsvRows(t)[1..] {
      var i :| 0 <= i < |RowGroups(t)| && row in RowGroups(t)[i];
      RowOfGroup(t, i, row);
    }
    if exists r, a :: r in t.lists && a in t.lists[r] && row == [r, a.code, a.section] {
      var r, a :| r in t.lists && a in t.lists[r] && row == [r, a.code, a.section];
      GroupOfRow(t, r, a);
    }
  }

  lemma RowOfGroup(t: RoomTable, i: nat, row: seq<string>)
    requires WellFormed(t) && i < |t.order| && row in RowGroups(t)[i]
    ensures exists r, a :: r in t.lists && a in t.lists[r] && row == [r, a.code, a.section]
  {
    var r := t.order[i];
    var j :| 0 <= j < |RowGroups(t)[i]| && RowGroups(t)[i][j] == row;
    assert r in t.lists && t.lists[r][j] in t.lists[r] && row == [r, t.lists[r][j].code, t.lists[r][j].section];
  }

  lemma GroupOfRow(t: RoomTable, r: string, a: Allocation)
    requires WellFormed(t) && r in t.lists && a in t.lists[r]
    ensures exists i :: 0 <= i < |RowGroups(t)| && [r, a.code, a.section] in RowGroups(t)[i]
  {
    var i :| 0 <= i < |t.order| && t.order[i] == r;
    var j :| 0 <= j < |t.lists[r]| && t.lists[r][j] == a;
    assert RowGroups(t)[i][j] == [r, a.code, a.section];
  }

  /** The rows of one room, appended one at a time. */
  method WriteRoomRows(room: string, l: seq<Allocation>) returns (rows: seq<seq<string>>)
    ensures rows == RoomRows(room, l)
  {
    rows := [];
    var j := 0;
    while j < |l|
      invariant j <= |l| && rows == RoomRows(room, l[..j])
    {
      rows := rows + [[room, l[j].code, l[j].section]];
      j := j + 1;
      assert l[..j][..j - 1] == l[..j - 1];
    }
    assert l[..j] == l;
  }

  /** The rows of the `i`-th room in dictionary order. */
  method WriteRoom(t: RoomTable, i: nat) returns (more: seq<seq<string>>)
    requires i < |t.order|
    ensures more == RowGroups(t)[i]
  {
    var room := t.order[i];
    var l := if room in t.lists then t.lists[room] else [];
    more := WriteRoomRows(room, l);
  }

  /** The `write_to_csv` loop of pdf_processor.py and pdf_Extractor.py:
      the header, then the rooms in dictionary order. */
  method WriteRows(t: RoomTable) returns (rows: seq<seq<string>>)
    ensures rows == CsvRows(t)
  {
    ghost var gs := RowGroups(t);
    rows := [Header];
    var i := 0;
    while i < |t.order|
      invariant i <= |t.order| && rows == [Header] + Flatten(gs[..i])
    {
      var more := WriteRoom(t, i);
      AppendGroup([Header], gs, i);
      rows := rows + more;
      i := i + 1;
    }
    assert gs[..i] == gs;
  }

  lemma AppendGroup<T>(h: seq<T>, gs: seq<seq<T>>, i: nat)
    requires i < |gs|
    ensures h + Flatten(gs[..i]) + gs[i] == h + Flatten(gs[..i + 1])
  {
    FlattenPrefixSnoc(gs, i);
  }
}
