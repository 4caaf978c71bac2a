/**
 Inserting a mission item through a plan that may refuse any step and misreport its count, its selection
 and its own insert. The plan's whole conduct during one call is fixed by a script of answers.
 */
module MissionInsert {
  import opened Common

  datatype Kind = Waypoint | Takeoff | Land | Roi | Drop | Survey | Corridor | Structure

  datatype Geometry = NoShape | Line | Area

  datatype Place = Place(latitude: real, longitude: real)

  /** `id` tells items apart that are alike in everything else. */
  datatype Item = Item(id: nat, kind: Kind, vertices: seq<Place>, launch: Option<Place>)

  /** How the plan behaves during one call. Its answers to reads are arbitrary; an insert adds one item or
      none; a write that is accepted takes effect and one that is refused does not. */
  datatype Script = Script(
    counts: nat -> Option<int>,    // the item count as answered to the n-th read, right or wrong
    sequence: int -> Option<int>,  // the sequence number of the item at a position, if answered
    pointed: int,                  // what pointing at it leaves selected
    takesHome: bool,               // does setting the home position take effect?
    refusesHere: bool,             // do the plan's rules refuse this kind at this point?
    adds: bool,                    // does the insert add its one item,
    id: nat,                       //   which,
    at: nat,                       //   where (or at the end),
    drawn: seq<Place>,             //   with which vertices already drawn,
    insertOk: bool,                //   and does it answer ok?
    answered: Option<int>,         // the index of the selected item as answered afterwards, right or wrong
    clears: bool,                  // does clearing the shape take effect?
    takesVertex: nat -> bool,      // is the n-th vertex accepted?
    takesLaunch: bool,             // is the launch position accepted,
    launchValid: bool,             //   and is there a valid launch point afterwards?
    removes: bool)                 // does the removal take effect?

  /** What the plan is told to do beside editing an item: to point at one, to set the home, to insert. */
  datatype Order = PointTo(sequence: int) | SetHome(place: Place) | InsertAt(kind: Kind, place: Place, index: int)

  datatype PlanState = PlanState(items: seq<Item>, selected: int, home: Option<Place>, orders: seq<Order>)

  /** The outline drawn by default around a place; which points exactly is not modelled. */
  type Outline = (Geometry, Place) -> seq<Place>

  datatype Ask = Malformed | Ask(kind: Option<Kind>, place: Place, index: int)

  datatype Answer =
    | BadArguments
    | UnknownKind
    | OnlyTheCorePlan
    | NoCount
    | NoSuchPlace
    | NothingSelected
    | RefusedHere
    | RefusedByPlan
    | DidNotGrow
    | NotFound
    | Inserted(kind: Kind, index: int, atSequence: int)
    | ShapeRefused

  function GeometryOf(kind: Kind): Geometry {
    match kind
    case Survey | Structure => Area
    case Corridor => Line
    case _ => NoShape
  }

  // ---- what one call does, step by step, as a function of the plan and its script ----

  /** The item the new one goes after: the last for a negative index, else the one before it. */
  function Wanted(index: int, count: int): (wanted: int)
    requires count > 0
    ensures 0 <= wanted < count
    ensures index < 0 ==> wanted == count - 1
    ensures 1 <= index <= count ==> wanted == index - 1
  {
    if index < 0 then count - 1 else Clamp(index - 1, 0, count - 1)
  }

  function Clamp(x: int, lo: int, hi: int): int {
    if x < lo then lo else if x > hi then hi else x
  }

  predicate Positive(count: Option<int>) {
    count.Some? && count.value > 0
  }

  /** The sequence number answered for the item the new one goes after, by a count of its own. */
  function SequenceAt(script: Script, index: int): Option<int> {
    if Positive(script.counts(1)) then script.sequence(Wanted(index, script.counts(1).value)) else None
  }

  /** Everything asked and checked before the plan is told to insert; None when nothing stands in the way. */
  function RefusalBefore(s: PlanState, script: Script, ask: Ask): Option<Answer> {
    if ask.Malformed? then Some(BadArguments)
    else if ask.kind.None? then Some(UnknownKind)
    else if ask.kind.value.Drop? then Some(OnlyTheCorePlan)
    else if !Positive(script.counts(0)) then Some(NoCount)
    else if ask.index >= 0 && (ask.index < 1 || ask.index > script.counts(0).value) then Some(NoSuchPlace)
    else if SequenceAt(script, ask.index).None? then Some(NothingSelected)
    else if script.refusesHere || (s.home.None? && !script.takesHome) then Some(RefusedHere)
    else None
  }

  /** Pointing moves the selection, and an unset home position is set, even if a refusal follows. */
  function Pointed(s: PlanState, script: Script, ask: Ask): PlanState {
    match RefusalBefore(s, script, ask)
    case Some(RefusedHere) | None =>
      var pointed := s.orders + [PointTo(SequenceAt(script, ask.index).value)];
      s.(selected := script.pointed,
         home := if s.home.None? && script.takesHome then Some(ask.place) else s.home,
         orders := if s.home.None? then pointed + [SetHome(ask.place)] else pointed)
    case _ => s
  }

  /** Where the new item goes. */
  function Position(s: PlanState, script: Script): (at: nat)
    ensures at <= |s.items|
  {
    if script.at <= |s.items| then script.at else |s.items|
  }

  function NewItem(script: Script, kind: Kind): Item {
    Item(script.id, kind, script.drawn, None)
  }

  function Added(s: PlanState, script: Script, kind: Kind): PlanState {
    if !script.adds then s
    else
      var at := Position(s, script);
      s.(items := s.items[..at] + [NewItem(script, kind)] + s.items[at..], selected := at)
  }

  /** The index that is shaped, and removed again on a refusal: whatever positive number was answered. */
  function Answered(script: Script): Option<nat> {
    if script.answered.Some? && script.answered.value > 0 then Some(script.answered.value) else None
  }

  /** How many vertices are taken before one is refused. */
  function Taken(script: Script, points: seq<Place>, n: nat): (taken: nat)
    requires n <= |points|
    ensures n <= taken <= |points|
    decreases |points| - n
  {
    if n == |points| || !script.takesVertex(n) then n else Taken(script, points, n + 1)
  }

  function Shapeable(script: Script, outline: Outline, kind: Kind, place: Place): bool {
    if kind.Takeoff? then script.takesLaunch && script.launchValid
    else Taken(script, Points(outline, kind, place), 0) == |Points(outline, kind, place)|
  }

  function Points(outline: Outline, kind: Kind, place: Place): seq<Place> {
    if GeometryOf(kind).NoShape? then [] else outline(GeometryOf(kind), place)
  }

  /** An item once shaping it as `kind` stopped, whether or not it got to the end. */
  function ShapedItem(script: Script, outline: Outline, item: Item, kind: Kind, place: Place): Item {
    if kind.Takeoff? then
      if script.takesLaunch then item.(launch := Some(place)) else item
    else if GeometryOf(kind).NoShape? then item
    else
      var points := Points(outline, kind, place);
      item.(vertices := (if script.clears then [] else item.vertices) + points[..Taken(script, points, 0)])
  }

  /** The items with the one at `i` shaped; an index past the end names none. */
  function ShapedAt(script: Script, outline: Outline, items: seq<Item>, i: nat, kind: Kind, place: Place): seq<Item> {
    if i < |items| then items[i := ShapedItem(script, outline, items[i], kind, place)] else items
  }

  function Without(items: seq<Item>, i: int): seq<Item> {
    if 0 <= i < |items| then items[..i] + items[i + 1..] else items
  }

  function WithVertex(items: seq<Item>, i: nat, v: Place): seq<Item>
    requires i < |items|
  {
    items[i := items[i].(vertices := items[i].vertices + [v])]
  }

  function WithVertices(items: seq<Item>, i: nat, vertices: seq<Place>): seq<Item> {
    if i < |items| then items[i := items[i].(vertices := vertices)] else items
  }

  // ---- the calls themselves ----

  class Plan {
    const script: Script
    const outline: Outline
    var items: seq<Item>
    var selected: int
    var home: Option<Place>
    var orders: seq<Order>

    function Snapshot(): PlanState
      reads this
    {
      PlanState(items, selected, home, orders)
    }

    constructor (script: Script, outline: Outline, items: seq<Item>, selected: int, home: Option<Place>)
      ensures Snapshot() == PlanState(items, selected, home, []) && this.script == script && this.outline == outline
    {
      this.script, this.outline := script, outline;
      this.items, this.selected, this.home, this.orders := items, selected, home, [];
    }

    // What the plan itself does when asked.

    method ItemCount(n: nat) returns (count: Option<int>)
      ensures count == script.counts(n)
    {
      count := script.counts(n);
    }

    method InsertedIndex() returns (index: Option<nat>)
      ensures index == Answered(script)
    {
      index := if script.answered.Some? && script.answered.value > 0 then Some(script.answered.value) else None;
    }

    method InvokeInsert(kind: Kind, place: Place, index: int) returns (ok: bool)
      modifies this
      ensures Snapshot() == Added(old(Snapshot()), script, kind).(orders := old(orders) + [InsertAt(kind, place, index)])
      ensures ok == script.insertOk
    {
      orders := orders + [InsertAt(kind, place, index)];
      if script.adds {
        var at := if script.at <= |items| then script.at else |items|;
        items := items[..at] + [Item(script.id, kind, script.drawn, None)] + items[at..];
        selected := at;
      }
      ok := script.insertOk;
    }

    method AppendVertex(index: nat, n: nat, v: Place) returns (ok: bool)
      modifies this`items
      ensures ok == script.takesVertex(n)
      ensures items == if ok && index < |old(items)| then WithVertex(old(items), index, v) else old(items)
    {
      ok := script.takesVertex(n);
      if ok && index < |items| {
        items := items[index := items[index].(vertices := items[index].vertices + [v])];
      }
    }

    method RemoveVisualItem(index: int)
      modifies this`items
      ensures items == if script.removes then Without(old(items), index) else old(items)
    {
      if script.removes && 0 <= index < |items| {
        items := items[..index] + items[index + 1..];
      }
    }

    // What the core asks of it.

    /** Select the item the new one goes after; the item's sequence number if all of that was answered. */
    method PointAt(index: int) returns (sequence: Option<int>)
      modifies this`selected, this`orders
      ensures sequence == SequenceAt(script, index)
      ensures selected == if sequence.Some? then script.pointed else old(selected)
      ensures orders == if sequence.Some? then old(orders) + [PointTo(sequence.value)] else old(orders)
    {
      var count := ItemCount(1);
      if count.None? || count.value <= 0 {
        return None;
      }
      var wanted := if index < 0 then count.value - 1 else Clamp(index - 1, 0, count.value - 1);
      sequence := script.sequence(wanted);
      if sequence.Some? {
        orders := orders + [PointTo(sequence.value)];
        selected := script.pointed;
      }
    }

    method Shape(kind: Kind, index: nat, place: Place) returns (ok: bool)
      modifies this`items
      ensures ok == Shapeable(script, outline, kind, place)
      ensures items == ShapedAt(script, outline, old(items), index, kind, place)
    {
      if kind == Takeoff {
        if !script.takesLaunch {
          return false;
        }
        if index < |items| {
          items := items[index := items[index].(launch := Some(place))];
        }
        return script.launchValid;
      }
      if GeometryOf(kind).NoShape? {
        return true;
      }
      ok := Draw(index, outline(GeometryOf(kind), place));
    }

    /** Clears the shape and appends vertex by vertex, up to the first refusal. */
    method Draw(index: nat, points: seq<Place>) returns (ok: bool)
      modifies this`items
      ensures ok == (Taken(script, points, 0) == |points|)
      ensures var before := if index < |old(items)| && !script.clears then old(items)[index].vertices else [];
              items == WithVertices(old(items), index, before + points[..Taken(script, points, 0)])
    {
      if script.clears && index < |items| {
        items := items[index := items[index].(vertices := [])];
      }
      ghost var before := if index < |items| then items[index].vertices else [];
      assert before + points[..0] == before && items == WithVertices(old(items), index, before);
      var n := 0;
      ok := true;
      while n < |points| && ok
        invariant 0 <= n <= |points|
        invariant ok ==> Taken(script, points, n) == Taken(script, points, 0)
        invariant !ok ==> Taken(script, points, 0) == n < |points|
        invariant items == WithVertices(old(items), index, before + points[..n])
        decreases |points| - n, ok
      {
        var taken := AppendVertex(index, n, points[n]);
        if taken {
          assert before + points[..n + 1] == (before + points[..n]) + [points[n]];
          n := n + 1;
        } else {
          ok := false;
        }
      }
    }

    method Insert(ask: Ask) returns (r: Answer)
      modifies this
      ensures (r, Snapshot()) == Insertion(old(Snapshot()), script, outline, ask)
    {
      if ask.Malformed? {
        return BadArguments;
      }
      if ask.kind.None? {
        return UnknownKind;
      }
      var kind := ask.kind.value;
      if kind == Drop {
        return OnlyTheCorePlan;
      }
      var held := ItemCount(0);
      if held.None? || held.value <= 0 {
        return NoCount;
      }
      if ask.index >= 0 && (ask.index < 1 || ask.index > held.value) {
        return NoSuchPlace;
      }
      var atSequence := PointAt(ask.index);
      if atSequence.None? {
        return NothingSelected;
      }
      if home.None? {
        orders := orders + [SetHome(ask.place)];
        if script.takesHome {
          home := Some(ask.place);
        }
      }
      if home.None? || script.refusesHere {
        return RefusedHere;
      }
      r := Complete(kind, ask.place, ask.index, held.value, atSequence.value);
    }

    /** From the insert itself to the shaped item, or back. */
    method Complete(kind: Kind, place: Place, index: int, held: int, atSequence: int) returns (r: Answer)
      modifies this
      ensures (r, Snapshot()) == Completed(old(Snapshot()), script, outline, kind, place, index, held, atSequence)
    {
      var answered := InvokeInsert(kind, place, index);
      if !answered {
        return RefusedByPlan;
      }
      var count := ItemCount(2);
      if count != Some(held + 1) {
        return DidNotGrow;
      }
      var placed := InsertedIndex();
      if placed.None? {
        return NotFound;
      }
      var shaped := Shape(kind, placed.value, place);
      if shaped {
        return Inserted(kind, placed.value, atSequence);
      }
      RemoveVisualItem(placed.value);
      return ShapeRefused;
    }
  }

  function Completed(s: PlanState, script: Script, outline: Outline, kind: Kind, place: Place, index: int,
                     held: int, atSequence: int): (Answer, PlanState)
  {
    var grown := Added(s, script, kind).(orders := s.orders + [InsertAt(kind, place, index)]);
    if !script.insertOk then (RefusedByPlan, grown)
    else if script.counts(2) != Some(held + 1) then (DidNotGrow, grown)
    else if Answered(script).None? then (NotFound, grown)
    else
      var placed := Answered(script).value;
      var shaped := ShapedAt(script, outline, grown.items, placed, kind, place);
      if Shapeable(script, outline, kind, place) then (Inserted(kind, placed, atSequence), grown.(items := shaped))
      else (ShapeRefused, grown.(items := if script.removes then Without(shaped, placed) else shaped))
  }

  /** The whole call: the answer, and the plan it leaves. */
  function Insertion(s: PlanState, script: Script, outline: Outline, ask: Ask): (Answer, PlanState) {
    match RefusalBefore(s, script, ask)
    case Some(refusal) => (refusal, Pointed(s, script, ask))
    case None =>
      Completed(Pointed(s, script, ask), script, outline, ask.kind.value, ask.place, ask.index,
                script.counts(0).value, SequenceAt(script, ask.index).value)
  }

  // ---- all or nothing ----

  /** One new item at `p`, everything else as it was. */
  ghost predicate OneMore(old_: seq<Item>, items: seq<Item>, p: int, item: Item) {
    0 <= p <= |old_| && items == old_[..p] + [item] + old_[p..]
  }

  /** Fully shaped: a takeoff has its launch position, a drawn kind has its outline and nothing else. */
  ghost predicate FullyShaped(script: Script, outline: Outline, item: Item, kind: Kind, place: Place) {
    && item.id == script.id && item.kind == kind
    && (kind.Takeoff? ==> item.launch == Some(place) && script.launchValid)
    && (!GeometryOf(kind).NoShape? ==> item.vertices == outline(GeometryOf(kind), place))
  }

  /** The new item is told apart from all the old ones, and they from each other. */
  ghost predicate ToldApart(s: PlanState, script: Script) {
    && (forall i, j :: 0 <= i < j < |s.items| ==> s.items[i].id != s.items[j].id)
    && (forall i :: 0 <= i < |s.items| ==> s.items[i].id != script.id)
  }

  /** The call got as far as shaping an item. */
  ghost predicate Shapes(s: PlanState, script: Script, ask: Ask) {
    && RefusalBefore(s, script, ask).None? && script.insertOk
    && script.counts(2) == Some(script.counts(0).value + 1) && Answered(script).Some?
  }

  /** There is a new item, and the index answered is its own. */
  ghost predicate AnsweredRight(s: PlanState, script: Script) {
    script.adds && Answered(script) == Some(Position(s, script))
  }

  /** Shaping leaves nothing of an item's own shape that differs from what is asked: the clear took effect,
      or nothing had been drawn. */
  ghost predicate DrawsClean(script: Script, kind: Kind) {
    GeometryOf(kind).NoShape? || script.clears || script.drawn == []
  }

  /** The new item at its place: rewriting it is still one item more, and removing it restores the list. */
  lemma AddedIsOneMore(s: PlanState, script: Script, kind: Kind, item: Item)
    requires script.adds
    ensures var g, at := Added(s, script, kind), Position(s, script);
            && |g.items| == |s.items| + 1 && g.items[at] == NewItem(script, kind)
            && OneMore(s.items, g.items, at, NewItem(script, kind))
            && OneMore(s.items, g.items[at := item], at, item)
            && Without(g.items[at := item], at) == s.items
  {
  }

  /** An item with the new id stands in the list exactly at its place. */
  lemma OnlyThere(s: PlanState, script: Script, kind: Kind, i: nat)
    requires script.adds && ToldApart(s, script) && i <= |s.items|
    ensures var g, at := Added(s, script, kind), Position(s, script);
            && (g.items[i].id == script.id <==> i == at)
            && (i < at ==> g.items[i] == s.items[i]) && (i > at ==> g.items[i] == s.items[i - 1])
  {
  }

  /** Where a list that differs from the old one by one item has it. */
  lemma OneMoreAt(old_: seq<Item>, items: seq<Item>, p: int, item: Item, i: nat)
    requires OneMore(old_, items, p, item) && i < |items|
    ensures items[i] == if i < p then old_[i] else if i == p then item else old_[i - 1]
  {
  }

  /** If a list is the old one with one more item, that one is wherever an item with the new id stands. */
  lemma NewIdIsTheNewOne(s: PlanState, script: Script, items: seq<Item>, p: int, item: Item, i: nat)
    requires ToldApart(s, script) && OneMore(s.items, items, p, item) && i < |items| && items[i].id == script.id
    ensures p == i && items[i] == item
  {
    OneMoreAt(s.items, items, p, item, i);
  }

  lemma NoneIsOneMore(s: PlanState, script: Script, items: seq<Item>, p: int, i: nat)
    requires ToldApart(s, script) && i < |items| && items[i].id == script.id && p != i
    ensures forall item :: !OneMore(s.items, items, p, item)
  {
    forall item | OneMore(s.items, items, p, item) ensures false {
      NewIdIsTheNewOne(s, script, items, p, item, i);
    }
  }

  /** A success is the old items and one fully shaped item at the reported index, if and only if the plan
      answered the new item's index and the item was drawn clean. */
  lemma SuccessExactly(s: PlanState, script: Script, outline: Outline, ask: Ask)
    requires ToldApart(s, script) && Insertion(s, script, outline, ask).0.Inserted?
    ensures var (r, t) := Insertion(s, script, outline, ask);
            (exists item :: OneMore(s.items, t.items, r.index, item) && FullyShaped(script, outline, item, r.kind, ask.place))
            <==> AnsweredRight(s, script) && DrawsClean(script, r.kind)
  {
    var (r, t) := Insertion(s, script, outline, ask);
    var ready, kind := Pointed(s, script, ask), ask.kind.value;
    var grown, at := Added(ready, script, kind), Position(ready, script);
    var shaped := ShapedItem(script, outline, NewItem(script, kind), kind, ask.place);
    ShapedNewItem(script, outline, kind, ask.place);
    if script.adds {
      AddedIsOneMore(ready, script, kind, shaped);
    }
    if AnsweredRight(s, script) {
      assert OneMore(s.items, t.items, r.index, shaped);
      forall item | OneMore(s.items, t.items, r.index, item) ensures item == shaped {
        OneMoreAt(s.items, t.items, r.index, item, at);
        OneMoreAt(s.items, t.items, r.index, shaped, at);
      }
    } else if script.adds {
      OnlyThere(ready, script, kind, at);
      assert t.items[at].id == script.id;
      NoneIsOneMore(s, script, t.items, r.index, at);
    }
  }

  lemma ShapedNewItem(script: Script, outline: Outline, kind: Kind, place: Place)
    requires Shapeable(script, outline, kind, place)
    ensures FullyShaped(script, outline, ShapedItem(script, outline, NewItem(script, kind), kind, place), kind, place)
            <==> DrawsClean(script, kind)
  {
    var points := Points(outline, kind, place);
    assert points[..|points|] == points;
    assert [] + points == points;
    assert |script.drawn + points| == |script.drawn| + |points|;
  }

  /** Shaping as `kind` changes this item. */
  ghost predicate Touches(script: Script, outline: Outline, item: Item, kind: Kind, place: Place) {
    var points := Points(outline, kind, place);
    if kind.Takeoff? then script.takesLaunch && item.launch != Some(place)
    else if GeometryOf(kind).NoShape? then false
    else if script.clears then item.vertices != points[..Taken(script, points, 0)]
    else Taken(script, points, 0) > 0
  }

  /** The plan answered the index of an item the operator already had, and that item is then removed, or
      shaped into something else. */
  ghost predicate Misled(s: PlanState, script: Script, outline: Outline, ask: Ask) {
    && Shapes(s, script, ask) && !AnsweredRight(s, script)
    && Answered(script).value < |Added(s, script, ask.kind.value).items|
    && var kind, old_ := ask.kind.value, Added(s, script, ask.kind.value).items[Answered(script).value];
    && ((!Shapeable(script, outline, kind, ask.place) && script.removes) || Touches(script, outline, old_, kind, ask.place))
  }

  /** The plan took an item in and then did not say so, did not count it, answered another index than its
      own, or would not give it up; or it took none in and let an old item be shaped or removed instead. */
  ghost predicate Stranded(s: PlanState, script: Script, outline: Outline, ask: Ask) {
    && RefusalBefore(s, script, ask).None?
    && if script.adds then
         || !Shapes(s, script, ask) || !AnsweredRight(s, script)
         || (!Shapeable(script, outline, ask.kind.value, ask.place) && !script.removes)
       else Misled(s, script, outline, ask)
  }

  /** Failure leaves the old items exactly as they were if and only if the plan is not stranded. */
  lemma FailureChangesNothing(s: PlanState, script: Script, outline: Outline, ask: Ask)
    requires ToldApart(s, script) && !Insertion(s, script, outline, ask).0.Inserted?
    ensures Insertion(s, script, outline, ask).1.items == s.items <==> !Stranded(s, script, outline, ask)
  {
    if RefusalBefore(s, script, ask).None? {
      if script.adds {
        FailureWithTheNew(s, script, outline, ask);
      } else if Shapes(s, script, ask) && Answered(script).value < |s.items| {
        TouchesExactly(script, outline, s.items[Answered(script).value], ask.kind.value, ask.place);
      }
    }
  }

  lemma FailureWithTheNew(s: PlanState, script: Script, outline: Outline, ask: Ask)
    requires ToldApart(s, script) && !Insertion(s, script, outline, ask).0.Inserted?
    requires RefusalBefore(s, script, ask).None? && script.adds
    ensures Insertion(s, script, outline, ask).1.items == s.items <==> !Stranded(s, script, outline, ask)
  {
    var ready, kind := Pointed(s, script, ask), ask.kind.value;
    var grown := Added(ready, script, kind).items;
    AddedIsOneMore(ready, script, kind, ShapedItem(script, outline, NewItem(script, kind), kind, ask.place));
    if Shapes(s, script, ask) {
      ItemsAfterShaping(s, script, outline, ask, grown,
                        ShapedAt(script, outline, grown, Answered(script).value, kind, ask.place));
      if !AnsweredRight(s, script) {
        WrongOneKeepsTheNew(ready, script, outline, kind, ask.place, Answered(script).value);
      }
    } else {
      assert Insertion(s, script, outline, ask).1.items == grown;
    }
  }

  /** Shaping or removing another item than the new one leaves the new one in the list. */
  lemma WrongOneKeepsTheNew(s: PlanState, script: Script, outline: Outline, kind: Kind, place: Place, j: nat)
    requires ToldApart(s, script) && script.adds && j != Position(s, script)
    ensures var shaped := ShapedAt(script, outline, Added(s, script, kind).items, j, kind, place);
            shaped != s.items && Without(shaped, j) != s.items
  {
    var g, at := Added(s, script, kind), Position(s, script);
    var shaped := ShapedAt(script, outline, g.items, j, kind, place);
    OnlyThere(s, script, kind, at);
    assert shaped[at].id == script.id;
    var i := if j < at && j < |shaped| then at - 1 else at;
    assert Without(shaped, j)[i].id == script.id;
  }

  // ---- the operator's own items ----

  /** All the old items are there, as they were and in their order, with at most one more among them. */
  ghost predicate AllKept(s: PlanState, items: seq<Item>) {
    items == s.items || exists p, item :: OneMore(s.items, items, p, item)
  }

  lemma TouchesExactly(script: Script, outline: Outline, item: Item, kind: Kind, place: Place)
    ensures ShapedItem(script, outline, item, kind, place) != item <==> Touches(script, outline, item, kind, place)
  {
    var points := Points(outline, kind, place);
    var taken := points[..Taken(script, points, 0)];
    assert [] + taken == taken;
    assert |item.vertices + taken| == |item.vertices| + |taken|;
    assert taken == [] ==> item.vertices + taken == item.vertices;
  }

  /** Every item the operator already had is kept, on success as on failure, if and only if the plan did not
      mislead the call to one of them. */
  lemma ItemsKeptExactly(s: PlanState, script: Script, outline: Outline, ask: Ask)
    requires ToldApart(s, script)
    ensures AllKept(s, Insertion(s, script, outline, ask).1.items) <==> !Misled(s, script, outline, ask)
  {
    if RefusalBefore(s, script, ask).None? {
      if !script.adds {
        KeptWithoutAdding(s, script, outline, ask);
      } else if AnsweredRight(s, script) || !Shapes(s, script, ask) {
        KeptIfRight(s, script, outline, ask);
      } else {
        KeptIfWrong(s, script, outline, ask);
      }
    }
  }

  lemma KeptWithoutAdding(s: PlanState, script: Script, outline: Outline, ask: Ask)
    requires RefusalBefore(s, script, ask).None? && !script.adds
    ensures AllKept(s, Insertion(s, script, outline, ask).1.items) <==> !Misled(s, script, outline, ask)
  {
    if Shapes(s, script, ask) && Answered(script).value < |s.items| {
      TouchesExactly(script, outline, s.items[Answered(script).value], ask.kind.value, ask.place);
    }
  }

  lemma KeptIfRight(s: PlanState, script: Script, outline: Outline, ask: Ask)
    requires RefusalBefore(s, script, ask).None? && script.adds && (AnsweredRight(s, script) || !Shapes(s, script, ask))
    ensures AllKept(s, Insertion(s, script, outline, ask).1.items)
  {
    NewOneKept(Pointed(s, script, ask), script, outline, ask.kind.value, ask.place);
  }

  /** What a call that got as far as shaping leaves, whichever item it shaped. */
  lemma ItemsAfterShaping(s: PlanState, script: Script, outline: Outline, ask: Ask, grown: seq<Item>, shaped: seq<Item>)
    requires Shapes(s, script, ask) && grown == Added(Pointed(s, script, ask), script, ask.kind.value).items
    requires shaped == ShapedAt(script, outline, grown, Answered(script).value, ask.kind.value, ask.place)
    ensures Insertion(s, script, outline, ask).1.items ==
            if !Shapeable(script, outline, ask.kind.value, ask.place) && script.removes
            then Without(shaped, Answered(script).value) else shaped
  {
  }

  lemma KeptIfWrong(s: PlanState, script: Script, outline: Outline, ask: Ask)
    requires ToldApart(s, script) && script.adds && Shapes(s, script, ask) && !AnsweredRight(s, script)
    ensures AllKept(s, Insertion(s, script, outline, ask).1.items) <==> !Misled(s, script, outline, ask)
  {
    var ready, kind, j := Pointed(s, script, ask), ask.kind.value, Answered(script).value;
    var grown := Added(ready, script, kind).items;
    var shaped := ShapedAt(script, outline, grown, j, kind, ask.place);
    ItemsAfterShaping(s, script, outline, ask, grown, shaped);
    assert ready.items == s.items && grown == Added(s, script, kind).items;
    if j <= |s.items| {
      WrongOneShaped(s, script, outline, kind, ask.place, j);
      WrongOneRemoved(s, script, outline, kind, ask.place, j);
    } else {
      NewOneKept(s, script, outline, kind, ask.place);
      assert Without(grown, j) == grown;
    }
  }

  /** The new item added, shaped or removed again leaves the old ones alone. */
  lemma NewOneKept(s: PlanState, script: Script, outline: Outline, kind: Kind, place: Place)
    requires script.adds
    ensures var g, at := Added(s, script, kind).items, Position(s, script);
            var shaped := ShapedAt(script, outline, g, at, kind, place);
            AllKept(s, g) && AllKept(s, shaped) && Without(shaped, at) == s.items
  {
    AddedIsOneMore(s, script, kind, NewItem(script, kind));
    AddedIsOneMore(s, script, kind, ShapedItem(script, outline, NewItem(script, kind), kind, place));
  }

  /** An old item removed in place of the new one is not kept. */
  lemma WrongOneRemoved(s: PlanState, script: Script, outline: Outline, kind: Kind, place: Place, j: nat)
    requires ToldApart(s, script) && script.adds && j != Position(s, script) && j <= |s.items|
    ensures !AllKept(s, Without(ShapedAt(script, outline, Added(s, script, kind).items, j, kind, place), j))
  {
    WrongOneKeepsTheNew(s, script, outline, kind, place, j);
    AddedIsOneMore(s, script, kind, NewItem(script, kind));
  }

  /** An old item shaped in place of the new one is kept if that changes nothing. */
  lemma WrongOneShaped(s: PlanState, script: Script, outline: Outline, kind: Kind, place: Place, j: nat)
    requires ToldApart(s, script) && script.adds && j != Position(s, script) && j <= |s.items|
    ensures var g := Added(s, script, kind).items;
            AllKept(s, ShapedAt(script, outline, g, j, kind, place)) <==> !Touches(script, outline, g[j], kind, place)
  {
    var g, at := Added(s, script, kind).items, Position(s, script);
    var shaped := ShapedAt(script, outline, g, j, kind, place);
    TouchesExactly(script, outline, g[j], kind, place);
    AddedIsOneMore(s, script, kind, NewItem(script, kind));
    OnlyThere(s, script, kind, at);
    OnlyThere(s, script, kind, j);
    KeptMeansUntouched(s, script, g, shaped, at, j);
    if shaped[j] == g[j] {
      assert shaped == g;
    }
  }

  lemma KeptMeansUntouched(s: PlanState, script: Script, g: seq<Item>, shaped: seq<Item>, at: nat, j: nat)
    requires ToldApart(s, script) && |shaped| == |g| && at < |g| && j < |g| && j != at && shaped[at].id == script.id
    requires OneMore(s.items, g, at, g[at])
    ensures forall p, item :: OneMore(s.items, shaped, p, item) ==> shaped[j] == g[j]
  {
    forall p, item | OneMore(s.items, shaped, p, item) ensures shaped[j] == g[j] {
      NewIdIsTheNewOne(s, script, shaped, p, item, at);
      OneMoreAt(s.items, shaped, p, item, j);
      OneMoreAt(s.items, g, at, g[at], j);
    }
  }

  /** The promise kept: a plan that adds nothing and says so, or one item that it counts and whose index it
      answers past the settings entry, and that clears and removes when told to, ends with either that one
      item more, fully shaped, or exactly the items it began with, whichever vertex or launch write it refuses. */
  lemma AllOrNothing(s: PlanState, script: Script, outline: Outline, ask: Ask)
    requires ToldApart(s, script)
    requires RefusalBefore(s, script, ask).None? ==>
               if script.adds then Shapes(s, script, ask) && AnsweredRight(s, script) else !Shapes(s, script, ask)
    requires script.removes && (script.clears || script.drawn == [])
    ensures var (r, t) := Insertion(s, script, outline, ask);
            if r.Inserted? then
              exists item :: OneMore(s.items, t.items, r.index, item) && FullyShaped(script, outline, item, r.kind, ask.place)
            else t.items == s.items
  {
    if Insertion(s, script, outline, ask).0.Inserted? {
      SuccessExactly(s, script, outline, ask);
    } else {
      FailureChangesNothing(s, script, outline, ask);
    }
  }

  // ---- when it succeeds, and what the plan is told ----

  /** The position of the item the new one goes after, by a count of `count`: the last for a negative index,
      else the one before it, as far as there is one. */
  ghost predicate GoesAfter(index: int, count: int, wanted: int) {
    0 <= wanted < count
    && (index < 0 || index >= count ==> wanted == count - 1)
    && (index <= 1 && index >= 0 ==> wanted == 0)
    && (1 < index < count ==> wanted == index - 1)
  }

  /** Everything that has to be right before the plan is told to insert. */
  ghost predicate Insertable(s: PlanState, script: Script, ask: Ask) {
    && ask.Ask? && ask.kind.Some? && ask.kind != Some(Drop)
    && script.counts(0).Some? && script.counts(0).value > 0 && (ask.index < 0 || 1 <= ask.index <= script.counts(0).value)
    && (exists wanted :: script.counts(1).Some? && GoesAfter(ask.index, script.counts(1).value, wanted)
                         && script.sequence(wanted).Some?)
    && !script.refusesHere && (s.home.Some? || script.takesHome)
  }

  lemma WantedIs(index: int, count: int, wanted: int)
    requires count > 0
    ensures GoesAfter(index, count, wanted) <==> wanted == Wanted(index, count)
  {
  }

  lemma InsertableExactly(s: PlanState, script: Script, ask: Ask)
    ensures Insertable(s, script, ask) <==> RefusalBefore(s, script, ask).None?
  {
    if ask.Ask? && Positive(script.counts(1)) {
      var count := script.counts(1).value;
      WantedIs(ask.index, count, Wanted(ask.index, count));
      forall wanted | GoesAfter(ask.index, count, wanted) ensures wanted == Wanted(ask.index, count) {
        WantedIs(ask.index, count, wanted);
      }
    }
  }

  lemma {:induction false} TakenAllExactly(script: Script, points: seq<Place>, n: nat)
    requires n <= |points|
    ensures Taken(script, points, n) == |points| <==> forall m :: n <= m < |points| ==> script.takesVertex(m)
    decreases |points| - n
  {
    if n < |points| && script.takesVertex(n) {
      TakenAllExactly(script, points, n + 1);
    }
  }

  /** The item takes its shape: a takeoff its launch position, and the plan has one then; what is drawn each
      vertex of its outline; anything else has none. */
  ghost predicate TakesShape(script: Script, outline: Outline, kind: Kind, place: Place) {
    match kind
    case Takeoff => script.takesLaunch && script.launchValid
    case Survey | Structure => forall m :: 0 <= m < |outline(Area, place)| ==> script.takesVertex(m)
    case Corridor => forall m :: 0 <= m < |outline(Line, place)| ==> script.takesVertex(m)
    case _ => true
  }

  lemma ShapeableExactly(script: Script, outline: Outline, kind: Kind, place: Place)
    ensures Shapeable(script, outline, kind, place) <==> TakesShape(script, outline, kind, place)
  {
    TakenAllExactly(script, Points(outline, kind, place), 0);
  }

  /** The call succeeds if and only if nothing stands in the way, the plan agrees to the insert, counts one item
      more, answers the index of an item after it, and that takes its shape; it then reports the kind, this
      index, and the sequence number of the item the new one was to go after. */
  lemma SucceedsExactly(s: PlanState, script: Script, outline: Outline, ask: Ask)
    ensures Insertion(s, script, outline, ask).0.Inserted? <==>
            && Insertable(s, script, ask)
            && script.insertOk && script.counts(2) == Some(script.counts(0).value + 1)
            && script.answered.Some? && script.answered.value > 0
            && TakesShape(script, outline, ask.kind.value, ask.place)
    ensures var r := Insertion(s, script, outline, ask).0;
            r.Inserted? ==>
              && Some(r.kind) == ask.kind && Some(r.index) == script.answered && script.counts(1).Some?
              && exists wanted :: GoesAfter(ask.index, script.counts(1).value, wanted)
                                  && script.sequence(wanted) == Some(r.atSequence)
  {
    InsertableExactly(s, script, ask);
    if RefusalBefore(s, script, ask).None? {
      ShapeableExactly(script, outline, ask.kind.value, ask.place);
      var count := script.counts(1).value;
      WantedIs(ask.index, count, Wanted(ask.index, count));
    }
  }

  /** The plan is told to insert this kind at this point and index, once, if and only if nothing stands in the
      way; and it is pointed at the item before the place first, and at nothing else. */
  lemma ToldExactly(s: PlanState, script: Script, outline: Outline, ask: Ask)
    ensures var t := Insertion(s, script, outline, ask).1;
            && s.orders <= t.orders
            && (Insertable(s, script, ask) <==>
                ask.Ask? && ask.kind.Some? && InsertAt(ask.kind.value, ask.place, ask.index) in t.orders[|s.orders|..])
            && (Insertable(s, script, ask) ==>
                  exists wanted, sequence ::
                    && GoesAfter(ask.index, script.counts(1).value, wanted) && script.sequence(wanted) == Some(sequence)
                    && t.orders == s.orders + [PointTo(sequence)] + (if s.home.None? then [SetHome(ask.place)] else [])
                                   + [InsertAt(ask.kind.value, ask.place, ask.index)])
  {
    InsertableExactly(s, script, ask);
    var t, ready := Insertion(s, script, outline, ask).1, Pointed(s, script, ask);
    if RefusalBefore(s, script, ask).None? {
      var count := script.counts(1).value;
      WantedIs(ask.index, count, Wanted(ask.index, count));
      var last := InsertAt(ask.kind.value, ask.place, ask.index);
      assert t.orders == ready.orders + [last];
      assert t.orders[|t.orders| - 1] == last && t.orders[|s.orders|..][|t.orders| - 1 - |s.orders|] == last;
    }
  }
}
