/**
 * The pass-diff engine of db.js: `saveCars` upserts one scraped batch of cars
 * for a link through `saveCar`, splits every stored car of the link into
 * created / removed / not changed by its two sequence markers, and writes the
 * three counts to the pass's sequence row (`updateSequence`).
 *
 * The car and sequence tables are maps in the `Store` class; a car row is
 * keyed by `(id, linkId)` as the table's composite primary key is.
 */
module CarStore {
  import opened Wrappers

  datatype CarKey = CarKey(id: int, linkId: int)

  /**
   * A car row, or a scraped car instance on its way into the table: the
   * listing's fields the model keeps (`url`) and the two sequence markers,
   * the pass that inserted it (`sequenceId`) and the last pass that saw it.
   */
  datatype Car = Car(id: int, linkId: int, url: Option<string>, sequenceId: int, sequenceLastChecked: int)

  function KeyOf(c: Car): CarKey { CarKey(c.id, c.linkId) }

  /** A row of the sequence table: one per pass of a link. */
  datatype SequenceRow = SequenceRow(linkId: int, carsAdded: int, carsRemoved: int, carsNotChanged: int)

  /** The link as `saveCars` receives it: its id and the id of this pass's sequence. */
  datatype LinkPass = LinkPass(id: int, currentSequence: int)

  datatype Status = Created | Removed | NotChanged

  /** The `outObj` that `saveCars` resolves to. */
  datatype Outcome = Outcome(created: seq<Car>, removed: seq<Car>, notChanged: seq<Car>)

  /** A car not checked in this pass is removed; one inserted in this pass is new. */
  function StatusOf(c: Car, currentSequence: int): Status
  {
    if c.sequenceLastChecked != currentSequence then Removed
    else if c.sequenceLastChecked == c.sequenceId then Created
    else NotChanged
  }

  function ListOf(o: Outcome, st: Status): seq<Car>
  {
    match st
    case Created => o.created
    case Removed => o.removed
    case NotChanged => o.notChanged
  }

  // ---------------------------------------------------------------------
  // Keys of rows and of row lists
  // ---------------------------------------------------------------------

  /** Every row is stored under its own key. */
  ghost predicate ValidCars(cars: map<CarKey, Car>)
  {
    forall k | k in cars :: KeyOf(cars[k]) == k
  }

  function KeySet(rows: seq<Car>): set<CarKey>
  {
    set c | c in rows :: KeyOf(c)
  }

  predicate DistinctKeys(rows: seq<Car>)
  {
    forall i, j | 0 <= i < j < |rows| :: KeyOf(rows[i]) != KeyOf(rows[j])
  }

  /** A list of rows with distinct keys is as long as its key set is large. */
  lemma {:induction false} DistinctKeysCount(rows: seq<Car>)
    requires DistinctKeys(rows)
    ensures |KeySet(rows)| == |rows|
  {
    if rows != [] {
      var init, last := rows[..|rows| - 1], rows[|rows| - 1];
      assert DistinctKeys(init) by {
        forall i, j | 0 <= i < j < |init| ensures KeyOf(init[i]) != KeyOf(init[j]) {
          assert init[i] == rows[i] && init[j] == rows[j];
        }
      }
      DistinctKeysCount(init);
      assert KeyOf(last) !in KeySet(init) by {
        forall c | c in init ensures KeyOf(c) != KeyOf(last) {
          var j :| 0 <= j < |init| && init[j] == c;
          assert rows[j] == c;
        }
      }
      assert rows == init + [last];
      KeySetSnoc(init, last);
    }
  }

  lemma DistinctSnoc(rows: seq<Car>, c: Car)
    requires DistinctKeys(rows) && KeyOf(c) !in KeySet(rows)
    ensures DistinctKeys(rows + [c])
  {
    forall i | 0 <= i < |rows| ensures KeyOf(rows[i]) != KeyOf(c) {
      assert rows[i] in rows;
    }
  }

  lemma KeySetSnoc(init: seq<Car>, last: Car)
    ensures KeySet(init + [last]) == KeySet(init) + {KeyOf(last)}
  {
    forall c | c in init + [last] ensures c in init || c == last {
    }
  }

  /** The stored cars of one link. */
  function LinkKeys(cars: map<CarKey, Car>, linkId: int): set<CarKey>
  {
    set k | k in cars && k.linkId == linkId
  }

  /** The stored cars of one link with a given status in a pass. */
  function StatusKeys(cars: map<CarKey, Car>, linkId: int, currentSequence: int, st: Status): set<CarKey>
  {
    set k | k in cars && k.linkId == linkId && StatusOf(cars[k], currentSequence) == st
  }

  /** The three statuses partition the stored cars of a link. */
  lemma StatusesPartition(cars: map<CarKey, Car>, linkId: int, cur: int)
    ensures var c, r, n := StatusKeys(cars, linkId, cur, Created), StatusKeys(cars, linkId, cur, Removed),
                           StatusKeys(cars, linkId, cur, NotChanged);
            c + r + n == LinkKeys(cars, linkId) && c !! r && c !! n && r !! n
            && |c| + |r| + |n| == |LinkKeys(cars, linkId)|
  {
    var c, r, n := StatusKeys(cars, linkId, cur, Created), StatusKeys(cars, linkId, cur, Removed),
                   StatusKeys(cars, linkId, cur, NotChanged);
    assert c + r + n == LinkKeys(cars, linkId);
    assert |c + r| == |c| + |r|;
  }

  // ---------------------------------------------------------------------
  // The upsert of one pass, as functions
  // ---------------------------------------------------------------------

  /** The first loop of saveCars: every input car gets the link's id and the pass. */
  function Stamp(batch: seq<Car>, link: LinkPass): seq<Car>
  {
    seq(|batch|, i requires 0 <= i < |batch| =>
      batch[i].(linkId := link.id, sequenceLastChecked := link.currentSequence))
  }

  /**
   * saveCar on the table: a stored car only gets the instance's
   * `sequenceLastChecked`; an unknown one is inserted with `sequenceId` set
   * to it. No row is removed and no other row changes.
   */
  function SaveCarSpec(cars: map<CarKey, Car>, inst: Car): (r: map<CarKey, Car>)
    ensures r.Keys == cars.Keys + {KeyOf(inst)}
    ensures forall k | k in cars && k != KeyOf(inst) :: r[k] == cars[k]
    ensures KeyOf(inst) in cars ==>
              r[KeyOf(inst)] == cars[KeyOf(inst)].(sequenceLastChecked := inst.sequenceLastChecked)
    ensures KeyOf(inst) !in cars ==>
              r[KeyOf(inst)] == inst.(sequenceId := inst.sequenceLastChecked)
  {
    var k := KeyOf(inst);
    if k in cars then cars[k := cars[k].(sequenceLastChecked := inst.sequenceLastChecked)]
    else cars[k := inst.(sequenceId := inst.sequenceLastChecked)]
  }

  /** saveCar applied to the instances one after another, in input order. */
  function SaveAll(cars: map<CarKey, Car>, insts: seq<Car>): map<CarKey, Car>
  {
    if insts == [] then cars
    else SaveCarSpec(SaveAll(cars, insts[..|insts| - 1]), insts[|insts| - 1])
  }

  lemma SaveAllSnoc(cars: map<CarKey, Car>, insts: seq<Car>, i: int)
    requires 0 <= i < |insts|
    ensures SaveAll(cars, insts[..i + 1]) == SaveCarSpec(SaveAll(cars, insts[..i]), insts[i])
  {
    assert insts[..i + 1][..i] == insts[..i];
  }

  /** What saveCar leaves of the input object: `sequenceId` is written on insert. */
  function InstanceAfter(cars: map<CarKey, Car>, inst: Car): Car
  {
    if KeyOf(inst) in cars then inst else inst.(sequenceId := inst.sequenceLastChecked)
  }

  /** The input array after the pass: each object as its own saveCar call left it. */
  function Instances(cars: map<CarKey, Car>, insts: seq<Car>): seq<Car>
  {
    seq(|insts|, i requires 0 <= i < |insts| => InstanceAfter(SaveAll(cars, insts[..i]), insts[i]))
  }

  /** A list that holds, at each position, the instance its save left behind is `Instances`. */
  lemma InstancesOf(cars: map<CarKey, Car>, insts: seq<Car>, out: seq<Car>)
    requires |out| == |insts|
    requires forall j | 0 <= j < |insts| :: out[j] == InstanceAfter(SaveAll(cars, insts[..j]), insts[j])
    ensures out == Instances(cars, insts)
  {
  }

  function InputKeys(insts: seq<Car>): set<CarKey>
  {
    set i | 0 <= i < |insts| :: KeyOf(insts[i])
  }

  function InputIds(insts: seq<Car>): set<int>
  {
    set i | 0 <= i < |insts| :: insts[i].id
  }

  predicate AllChecked(insts: seq<Car>, cur: int)
  {
    forall i | 0 <= i < |insts| :: insts[i].sequenceLastChecked == cur
  }

  /**
   * After the upsert: no row is deleted; a row the input did not name is
   * untouched; a stored row the input named keeps everything but its
   * lastChecked marker, which becomes the pass; a new row carries the pass
   * in both markers.
   */
  lemma {:induction false} SaveAllAt(cars: map<CarKey, Car>, insts: seq<Car>, cur: int, k: CarKey)
    requires AllChecked(insts, cur)
    ensures SaveAll(cars, insts).Keys == cars.Keys + InputKeys(insts)
    ensures k in cars && k !in InputKeys(insts) ==> SaveAll(cars, insts)[k] == cars[k]
    ensures k in cars && k in InputKeys(insts) ==>
              SaveAll(cars, insts)[k] == cars[k].(sequenceLastChecked := cur)
    ensures k !in cars && k in InputKeys(insts) ==>
              SaveAll(cars, insts)[k].sequenceId == cur && SaveAll(cars, insts)[k].sequenceLastChecked == cur
  {
    if insts != [] {
      var init, last := insts[..|insts| - 1], insts[|insts| - 1];
      assert AllChecked(init, cur);
      SaveAllAt(cars, init, cur, k);
      assert insts == init + [last];
      InputKeysSnoc(init, last);
    }
  }

  lemma InputKeysSnoc(init: seq<Car>, last: Car)
    ensures InputKeys(init + [last]) == InputKeys(init) + {KeyOf(last)}
  {
    var insts := init + [last];
    forall k | k in InputKeys(insts) ensures k in InputKeys(init) || k == KeyOf(last) {
      var i :| 0 <= i < |insts| && KeyOf(insts[i]) == k;
      if i < |init| {
        assert insts[i] == init[i];
      }
    }
    forall k | k in InputKeys(init) ensures k in InputKeys(insts) {
      var i :| 0 <= i < |init| && KeyOf(init[i]) == k;
      assert insts[i] == init[i];
    }
    assert insts[|init|] == last;
  }

  /** A new car's row is its first instance in the input; later duplicates only touch the marker. */
  lemma {:induction false} FirstInstanceInserted(cars: map<CarKey, Car>, insts: seq<Car>, cur: int, i: nat)
    requires AllChecked(insts, cur)
    requires i < |insts| && KeyOf(insts[i]) !in cars
    requires forall j | 0 <= j < i :: KeyOf(insts[j]) != KeyOf(insts[i])
    ensures KeyOf(insts[i]) in SaveAll(cars, insts)
    ensures SaveAll(cars, insts)[KeyOf(insts[i])] == insts[i].(sequenceId := cur)
  {
    var init, last := insts[..|insts| - 1], insts[|insts| - 1];
    assert AllChecked(init, cur);
    if i < |insts| - 1 {
      assert init[i] == insts[i];
      FirstInstanceInserted(cars, init, cur, i);
    } else {
      SaveAllAt(cars, init, cur, KeyOf(last));
      assert KeyOf(last) !in InputKeys(init);
    }
  }

  lemma {:induction false} SaveAllValid(cars: map<CarKey, Car>, insts: seq<Car>)
    requires ValidCars(cars)
    ensures ValidCars(SaveAll(cars, insts))
  {
    if insts != [] {
      SaveAllValid(cars, insts[..|insts| - 1]);
    }
  }

  /** Saving the same stamped batch a second time changes nothing. */
  lemma SaveAllIdempotent(cars: map<CarKey, Car>, insts: seq<Car>, cur: int)
    requires AllChecked(insts, cur)
    ensures SaveAll(SaveAll(cars, insts), insts) == SaveAll(cars, insts)
  {
    var once := SaveAll(cars, insts);
    var twice := SaveAll(once, insts);
    SaveAllAt(cars, insts, cur, CarKey(0, 0));
    SaveAllAt(once, insts, cur, CarKey(0, 0));
    forall k | k in twice ensures twice[k] == once[k] {
      SaveAllAt(cars, insts, cur, k);
      SaveAllAt(once, insts, cur, k);
    }
  }

  // ---------------------------------------------------------------------
  // The classification, as a function of the rows findAll returns
  // ---------------------------------------------------------------------

  /** The second loop of saveCars over the link's rows, in the order given. */
  function ClassifyRows(rows: seq<Car>, cur: int): Outcome
  {
    if rows == [] then Outcome([], [], [])
    else
      var o := ClassifyRows(rows[..|rows| - 1], cur);
      var c := rows[|rows| - 1];
      match StatusOf(c, cur)
      case Removed => o.(removed := o.removed + [c])
      case Created => o.(created := o.created + [c])
      case NotChanged => o.(notChanged := o.notChanged + [c])
  }

  /**
   * Each row lands in exactly the list of its status, and rows with
   * distinct keys give a list with distinct keys.
   */
  lemma ClassifyRowsSound(rows: seq<Car>, cur: int, st: Status)
    ensures forall c: Car :: c in ListOf(ClassifyRows(rows, cur), st) <==> c in rows && StatusOf(c, cur) == st
    ensures DistinctKeys(rows) ==> DistinctKeys(ListOf(ClassifyRows(rows, cur), st))
  {
    ClassifyRowsMembers(rows, cur, st);
    if DistinctKeys(rows) {
      ClassifyRowsDistinct(rows, cur, st);
    }
  }

  /** The last row goes to the end of the list of its own status, and no other list changes. */
  lemma ClassifyRowsSnoc(init: seq<Car>, last: Car, cur: int, st: Status)
    ensures ListOf(ClassifyRows(init + [last], cur), st)
         == if StatusOf(last, cur) == st then ListOf(ClassifyRows(init, cur), st) + [last]
            else ListOf(ClassifyRows(init, cur), st)
  {
    assert (init + [last])[..|init|] == init;
  }

  lemma {:induction false} ClassifyRowsMembers(rows: seq<Car>, cur: int, st: Status)
    ensures forall c: Car :: c in ListOf(ClassifyRows(rows, cur), st) <==> c in rows && StatusOf(c, cur) == st
  {
    if rows != [] {
      var init, last := rows[..|rows| - 1], rows[|rows| - 1];
      assert rows == init + [last];
      ClassifyRowsMembers(init, cur, st);
      ClassifyRowsSnoc(init, last, cur, st);
      var after, before := ListOf(ClassifyRows(rows, cur), st), ListOf(ClassifyRows(init, cur), st);
      assert after == if StatusOf(last, cur) == st then before + [last] else before;
      forall c: Car ensures c in after <==> c in rows && StatusOf(c, cur) == st {
        assert c in rows <==> c in init || c == last;
        assert c in after <==> c in before || (c == last && StatusOf(last, cur) == st);
      }
    }
  }

  lemma {:induction false} ClassifyRowsDistinct(rows: seq<Car>, cur: int, st: Status)
    requires DistinctKeys(rows)
    ensures DistinctKeys(ListOf(ClassifyRows(rows, cur), st))
  {
    if rows != [] {
      var init, last := rows[..|rows| - 1], rows[|rows| - 1];
      assert rows == init + [last];
      assert DistinctKeys(init);
      ClassifyRowsDistinct(init, cur, st);
      ClassifyRowsMembers(init, cur, st);
      ClassifyRowsSnoc(init, last, cur, st);
      var before := ListOf(ClassifyRows(init, cur), st);
      if StatusOf(last, cur) == st {
        assert KeyOf(last) !in KeySet(before) by {
          forall c | c in before ensures KeyOf(c) != KeyOf(last) {
            var m :| 0 <= m < |init| && init[m] == c;
            assert rows[m] == c;
          }
        }
        DistinctSnoc(before, last);
      }
    }
  }

  /** The three lists together are as long as the input. */
  lemma {:induction false} ClassifyRowsCount(rows: seq<Car>, cur: int)
    ensures var o := ClassifyRows(rows, cur); |o.created| + |o.removed| + |o.notChanged| == |rows|
  {
    if rows != [] {
      ClassifyRowsCount(rows[..|rows| - 1], cur);
    }
  }

  /** The second loop of `saveCars`: push every row onto the list of its status. */
  method Classify(rows: seq<Car>, cur: int) returns (out: Outcome)
    ensures out == ClassifyRows(rows, cur)
  {
    out := Outcome([], [], []);
    var i := 0;
    while i < |rows|
      invariant 0 <= i <= |rows|
      invariant out == ClassifyRows(rows[..i], cur)
    {
      var c := rows[i];
      if c.sequenceLastChecked != cur {
        out := out.(removed := out.removed + [c]);
      } else if c.sequenceLastChecked == c.sequenceId {
        out := out.(created := out.created + [c]);
      } else {
        out := out.(notChanged := out.notChanged + [c]);
      }
      assert rows[..i + 1][..i] == rows[..i];
      i := i + 1;
    }
    assert rows[..i] == rows;
  }

  /** The three lists of a pass over the rows of a link, as key sets and counts. */
  ghost predicate ClassifiedAs(o: Outcome, cars: map<CarKey, Car>, link: LinkPass)
  {
    forall st: Status ::
      && DistinctKeys(ListOf(o, st))
      && KeySet(ListOf(o, st)) == StatusKeys(cars, link.id, link.currentSequence, st)
      && |ListOf(o, st)| == |StatusKeys(cars, link.id, link.currentSequence, st)|
      && (forall c | c in ListOf(o, st) :: KeyOf(c) in cars && cars[KeyOf(c)] == c)
  }

  lemma ClassifyRowsOfLink(rows: seq<Car>, cars: map<CarKey, Car>, link: LinkPass)
    requires DistinctKeys(rows) && KeySet(rows) == LinkKeys(cars, link.id)
    requires forall c | c in rows :: KeyOf(c) in cars && cars[KeyOf(c)] == c
    ensures ClassifiedAs(ClassifyRows(rows, link.currentSequence), cars, link)
  {
    forall st: Status
      ensures var l, keys := ListOf(ClassifyRows(rows, link.currentSequence), st), StatusKeys(cars, link.id, link.currentSequence, st);
              && DistinctKeys(l) && KeySet(l) == keys && |l| == |keys|
              && (forall c | c in l :: KeyOf(c) in cars && cars[KeyOf(c)] == c)
    {
      ClassifyListOfLink(rows, cars, link, st);
    }
  }

  lemma ClassifyListOfLink(rows: seq<Car>, cars: map<CarKey, Car>, link: LinkPass, st: Status)
    requires DistinctKeys(rows) && KeySet(rows) == LinkKeys(cars, link.id)
    requires forall c | c in rows :: KeyOf(c) in cars && cars[KeyOf(c)] == c
    ensures var l, keys := ListOf(ClassifyRows(rows, link.currentSequence), st), StatusKeys(cars, link.id, link.currentSequence, st);
            && DistinctKeys(l) && KeySet(l) == keys && |l| == |keys|
            && (forall c | c in l :: KeyOf(c) in cars && cars[KeyOf(c)] == c)
  {
    var l := ListOf(ClassifyRows(rows, link.currentSequence), st);
    var keys := StatusKeys(cars, link.id, link.currentSequence, st);
    ClassifyRowsSound(rows, link.currentSequence, st);
    forall k | k in KeySet(l) ensures k in keys {
      var c :| c in l && KeyOf(c) == k;
      assert k in KeySet(rows);
    }
    forall k | k in keys ensures k in KeySet(l) {
      assert k in KeySet(rows);
      var c :| c in rows && KeyOf(c) == k;
    }
    DistinctKeysCount(l);
  }

  // ---------------------------------------------------------------------
  // What a pass reports when its sequence is newer than every marker
  // ---------------------------------------------------------------------

  /** The pass is newer than both markers of every stored car of the link. */
  ghost predicate NewerThanMarkers(cars: map<CarKey, Car>, link: LinkPass)
  {
    forall k | k in cars && k.linkId == link.id ::
      cars[k].sequenceId < link.currentSequence && cars[k].sequenceLastChecked < link.currentSequence
  }

  lemma StampedKeys(batch: seq<Car>, link: LinkPass)
    ensures InputKeys(Stamp(batch, link)) == set id | id in InputIds(batch) :: CarKey(id, link.id)
    ensures AllChecked(Stamp(batch, link), link.currentSequence)
  {
    var stamped := Stamp(batch, link);
    forall k | k in set id | id in InputIds(batch) :: CarKey(id, link.id) ensures k in InputKeys(stamped) {
      var i :| 0 <= i < |batch| && batch[i].id == k.id;
      assert KeyOf(stamped[i]) == k;
    }
  }

  /**
   * A pass newer than every stored marker reports as created exactly the
   * input cars not stored before, as not changed exactly the input cars
   * stored before (a car that comes back keeps its old `sequenceId`), and as
   * removed every stored car of the link the input did not name, including
   * cars already reported removed by earlier passes.
   */
  lemma FreshPassClassification(cars: map<CarKey, Car>, batch: seq<Car>, link: LinkPass)
    requires NewerThanMarkers(cars, link)
    ensures var after, seen, cur := SaveAll(cars, Stamp(batch, link)), InputKeys(Stamp(batch, link)), link.currentSequence;
            && StatusKeys(after, link.id, cur, Created) == seen - cars.Keys
            && StatusKeys(after, link.id, cur, NotChanged) == seen * cars.Keys
            && StatusKeys(after, link.id, cur, Removed) == LinkKeys(cars, link.id) - seen
  {
    var stamped, cur := Stamp(batch, link), link.currentSequence;
    var after, seen := SaveAll(cars, stamped), InputKeys(stamped);
    StampedKeys(batch, link);
    forall k | k in after ensures k.linkId == link.id && StatusOf(after[k], cur) == Created <==> k in seen - cars.Keys
      ensures k.linkId == link.id && StatusOf(after[k], cur) == NotChanged <==> k in seen * cars.Keys
      ensures k.linkId == link.id && StatusOf(after[k], cur) == Removed <==> k in LinkKeys(cars, link.id) - seen
    {
      SaveAllAt(cars, stamped, cur, k);
    }
    SaveAllAt(cars, stamped, cur, CarKey(0, 0));
  }

  /** Keys of one link are as many as their ids. */
  lemma {:induction false} KeysOfOneLinkCount(keys: set<CarKey>, linkId: int)
    requires forall k | k in keys :: k.linkId == linkId
    ensures |keys| == |set k | k in keys :: k.id|
    decreases |keys|
  {
    if keys != {} {
      var k :| k in keys;
      var rest := keys - {k};
      KeysOfOneLinkCount(rest, linkId);
      assert (set x | x in keys :: x.id) == (set x | x in rest :: x.id) + {k.id};
      assert k.id !in (set x | x in rest :: x.id);
    }
  }

  /** In such a pass the created and not-changed counts add up to the distinct input ids. */
  lemma FreshPassCounts(cars: map<CarKey, Car>, batch: seq<Car>, link: LinkPass)
    requires NewerThanMarkers(cars, link)
    ensures var after, cur := SaveAll(cars, Stamp(batch, link)), link.currentSequence;
            |StatusKeys(after, link.id, cur, Created)| + |StatusKeys(after, link.id, cur, NotChanged)| == |InputIds(batch)|
  {
    FreshPassClassification(cars, batch, link);
    StampedKeys(batch, link);
    var seen := InputKeys(Stamp(batch, link));
    KeysOfOneLinkCount(seen, link.id);
    StampedIds(batch, link);
    assert seen == (seen - cars.Keys) + (seen * cars.Keys);
  }

  /** The ids of the stamped batch's keys are the batch's input ids. */
  lemma StampedIds(batch: seq<Car>, link: LinkPass)
    ensures (set k | k in InputKeys(Stamp(batch, link)) :: k.id) == InputIds(batch)
  {
    StampedKeys(batch, link);
    var seen := InputKeys(Stamp(batch, link));
    forall id | id in InputIds(batch) ensures id in (set k | k in seen :: k.id) {
      assert CarKey(id, link.id) in seen;
    }
  }

  /**
   * Passes with increasing sequence ids stay newer than every marker: after
   * a pass, every marker of the link is at most that pass.
   */
  lemma NextPassIsNewer(cars: map<CarKey, Car>, batch: seq<Car>, link: LinkPass, next: int)
    requires NewerThanMarkers(cars, link) && link.currentSequence < next
    ensures NewerThanMarkers(SaveAll(cars, Stamp(batch, link)), LinkPass(link.id, next))
  {
    var stamped := Stamp(batch, link);
    StampedKeys(batch, link);
    forall k | k in SaveAll(cars, stamped) && k.linkId == link.id
      ensures SaveAll(cars, stamped)[k].sequenceId < next
      ensures SaveAll(cars, stamped)[k].sequenceLastChecked < next
    {
      SaveAllAt(cars, stamped, link.currentSequence, k);
    }
  }

  /**
   * One pass over a link whose markers are all older, in terms of the keys
   * of that link only: what it reports, which keys the link has afterwards,
   * and that the next pass is newer still.
   */
  lemma OnePass(cars: map<CarKey, Car>, batch: seq<Car>, link: LinkPass, seen: set<CarKey>)
    requires NewerThanMarkers(cars, link) && InputKeys(Stamp(batch, link)) == seen
    ensures var after, old_, cur := SaveAll(cars, Stamp(batch, link)), LinkKeys(cars, link.id), link.currentSequence;
            && StatusKeys(after, link.id, cur, Created) == seen - old_
            && StatusKeys(after, link.id, cur, NotChanged) == seen * old_
            && StatusKeys(after, link.id, cur, Removed) == old_ - seen
            && LinkKeys(after, link.id) == old_ + seen
            && NewerThanMarkers(after, LinkPass(link.id, cur + 1))
  {
    var stamped := Stamp(batch, link);
    StampedKeys(batch, link);
    FreshPassClassification(cars, batch, link);
    NextPassIsNewer(cars, batch, link, link.currentSequence + 1);
    forall k | k in SaveAll(cars, stamped) ensures k in cars.Keys + seen {
      SaveAllAt(cars, stamped, link.currentSequence, k);
    }
    forall k | k in cars.Keys + seen ensures k in SaveAll(cars, stamped) {
      SaveAllAt(cars, stamped, link.currentSequence, k);
    }
  }

  lemma KeysOfTwo(batch: seq<Car>, link: LinkPass, x: int, y: int)
    requires InputIds(batch) == {x, y}
    ensures InputKeys(Stamp(batch, link)) == {CarKey(x, link.id), CarKey(y, link.id)}
  {
    StampedKeys(batch, link);
  }

  /**
   * The first two passes of a link none of whose cars are stored: a pass
   * listing cars x and y creates both; a pass listing x and z then creates
   * z, removes y and leaves all three stored. (`LaterPasses` continues the
   * same scenario from there.)
   */
  lemma FirstPasses(c0: map<CarKey, Car>, linkId: int, x: int, y: int, z: int, b1: seq<Car>, b2: seq<Car>)
    requires LinkKeys(c0, linkId) == {} && x != y && y != z && x != z
    requires InputIds(b1) == {x, y} && InputIds(b2) == {x, z}
    ensures var c1 := SaveAll(c0, Stamp(b1, LinkPass(linkId, 1)));
            var c2 := SaveAll(c1, Stamp(b2, LinkPass(linkId, 2)));
            var a, b, c := CarKey(x, linkId), CarKey(y, linkId), CarKey(z, linkId);
            && StatusKeys(c1, linkId, 1, Created) == {a, b}
            && StatusKeys(c2, linkId, 2, Created) == {c} && StatusKeys(c2, linkId, 2, Removed) == {b}
            && StatusKeys(c2, linkId, 2, NotChanged) == {a}
            && LinkKeys(c2, linkId) == {a, b, c} && NewerThanMarkers(c2, LinkPass(linkId, 3))
  {
    var l1, l2 := LinkPass(linkId, 1), LinkPass(linkId, 2);
    var a, b, c := CarKey(x, linkId), CarKey(y, linkId), CarKey(z, linkId);
    var c1 := SaveAll(c0, Stamp(b1, l1));
    KeysOfTwo(b1, l1, x, y);
    KeysOfTwo(b2, l2, x, z);
    assert NewerThanMarkers(c0, l1) by {
      assert forall k | k in c0 && k.linkId == linkId :: k in LinkKeys(c0, linkId);
    }
    FirstKeys(a, b, c);
    OnePass(c0, b1, l1, {a, b});
    OnePass(c1, b2, l2, {a, c});
  }

  lemma FirstKeys(a: CarKey, b: CarKey, c: CarKey)
    requires a != b && b != c && a != c
    ensures {a, b} - {} == {a, b} && {} + {a, b} == {a, b}
    ensures {a, c} - {a, b} == {c} && {a, c} * {a, b} == {a} && {a, b} - {a, c} == {b}
    ensures {a, b} + {a, c} == {a, b, c}
  {
  }

  /**
   * The last two passes of the scenario `FirstPasses` begins: with cars x, y
   * and z stored for the link, a pass listing x and y reports y as not
   * changed (it keeps the `sequenceId` of the first pass) and z as removed;
   * a pass listing x then reports z as removed again, beside y.
   */
  lemma LaterPasses(c2: map<CarKey, Car>, linkId: int, x: int, y: int, z: int, b3: seq<Car>, b4: seq<Car>)
    requires var a, b, c := CarKey(x, linkId), CarKey(y, linkId), CarKey(z, linkId);
             LinkKeys(c2, linkId) == {a, b, c} && NewerThanMarkers(c2, LinkPass(linkId, 3))
    requires x != y && y != z && x != z && InputIds(b3) == {x, y} && InputIds(b4) == {x}
    ensures var c3 := SaveAll(c2, Stamp(b3, LinkPass(linkId, 3)));
            var c4 := SaveAll(c3, Stamp(b4, LinkPass(linkId, 4)));
            var a, b, c := CarKey(x, linkId), CarKey(y, linkId), CarKey(z, linkId);
            && StatusKeys(c3, linkId, 3, Created) == {} && StatusKeys(c3, linkId, 3, Removed) == {c}
            && StatusKeys(c3, linkId, 3, NotChanged) == {a, b}
            && StatusKeys(c4, linkId, 4, Removed) == {b, c} && StatusKeys(c4, linkId, 4, NotChanged) == {a}
  {
    var l3, l4 := LinkPass(linkId, 3), LinkPass(linkId, 4);
    var a, b, c := CarKey(x, linkId), CarKey(y, linkId), CarKey(z, linkId);
    var c3 := SaveAll(c2, Stamp(b3, l3));
    ThreeKeys(a, b, c);
    KeysOfTwo(b3, l3, x, y);
    KeysOfTwo(b4, l4, x, x);
    OnePass(c2, b3, l3, {a, b});
    OnePass(c3, b4, l4, {a});
  }

  lemma ThreeKeys(a: CarKey, b: CarKey, c: CarKey)
    requires a != b && b != c && a != c
    ensures {a, b} - {a, b, c} == {} && {a, b} * {a, b, c} == {a, b} && {a, b, c} - {a, b} == {c}
    ensures {a, b, c} + {a, b} == {a, b, c} && {a} * {a, b, c} == {a} && {a, b, c} - {a} == {b, c}
  {
  }

  // ---------------------------------------------------------------------
  // The tables
  // ---------------------------------------------------------------------

  class Store {
    var cars: map<CarKey, Car>
    var sequences: map<int, SequenceRow>
    var nextSequenceId: int

    ghost predicate Valid()
      reads this
    {
      ValidCars(cars) && forall id | id in sequences :: id < nextSequenceId
    }

    constructor ()
      ensures Valid()
      ensures cars == map[] && sequences == map[] && nextSequenceId == 1
    {
      cars := map[];
      sequences := map[];
      nextSequenceId := 1;
    }

    /** `createSequence`: a fresh row with zero counters, under a fresh id. */
    method CreateSequence(linkId: int) returns (id: int)
      requires Valid()
      modifies this
      ensures Valid()
      ensures id == old(nextSequenceId) && id !in old(sequences)
      ensures sequences == old(sequences)[id := SequenceRow(linkId, 0, 0, 0)]
      ensures cars == old(cars) && nextSequenceId == id + 1
    {
      id := nextSequenceId;
      sequences := sequences[id := SequenceRow(linkId, 0, 0, 0)];
      nextSequenceId := nextSequenceId + 1;
    }

    /** `updateSequence`: overwrite the three counters of an existing row. */
    method UpdateSequence(sequenceId: int, carsAdded: int, carsRemoved: int, carsNotChanged: int)
      requires Valid()
      modifies this
      ensures Valid()
      ensures sequenceId in old(sequences) ==>
                sequences == old(sequences)[sequenceId := old(sequences)[sequenceId].(
                  carsAdded := carsAdded, carsRemoved := carsRemoved, carsNotChanged := carsNotChanged)]
      ensures sequenceId !in old(sequences) ==> sequences == old(sequences)
      ensures cars == old(cars) && nextSequenceId == old(nextSequenceId)
    {
      if sequenceId in sequences {
        var row := sequences[sequenceId];
        sequences := sequences[sequenceId := row.(
          carsAdded := carsAdded, carsRemoved := carsRemoved, carsNotChanged := carsNotChanged)];
      }
    }

    /** `saveCar`: upsert one instance and give back the instance as the call left it. */
    method SaveCar(inst: Car) returns (after: Car)
      requires Valid()
      modifies this
      ensures Valid()
      ensures cars == SaveCarSpec(old(cars), inst)
      ensures after == InstanceAfter(old(cars), inst)
      ensures sequences == old(sequences) && nextSequenceId == old(nextSequenceId)
    {
      var k := CarKey(inst.id, inst.linkId);
      if k in cars {
        cars := cars[k := cars[k].(sequenceLastChecked := inst.sequenceLastChecked)];
        after := inst;
      } else {
        after := inst.(sequenceId := inst.sequenceLastChecked);
        cars := cars[k := after];
      }
    }

    /** `findAll` on the car table for one link, in no particular order. */
    method FindAllByLink(linkId: int) returns (rows: seq<Car>)
      requires Valid()
      ensures DistinctKeys(rows)
      ensures KeySet(rows) == LinkKeys(cars, linkId)
      ensures forall c | c in rows :: KeyOf(c) in cars && cars[KeyOf(c)] == c
    {
      rows := [];
      var todo := LinkKeys(cars, linkId);
      while todo != {}
        invariant todo <= LinkKeys(cars, linkId)
        invariant KeySet(rows) == LinkKeys(cars, linkId) - todo
        invariant DistinctKeys(rows)
        invariant forall c | c in rows :: KeyOf(c) in cars && cars[KeyOf(c)] == c
        decreases |todo|
      {
        var k :| k in todo;
        var c := cars[k];
        assert KeyOf(c) == k && k !in KeySet(rows);
        KeySetSnoc(rows, c);
        DistinctSnoc(rows, c);
        assert LinkKeys(cars, linkId) - (todo - {k}) == (LinkKeys(cars, linkId) - todo) + {k};
        assert forall d | d in rows + [c] :: d in rows || d == c;
        rows := rows + [c];
        todo := todo - {k};
      }
    }

    /** The first loop of `saveCars`: write the link's id and the pass into every input object. */
    method StampBatch(batch: array<Car>, link: LinkPass)
      modifies batch
      ensures batch[..] == Stamp(old(batch[..]), link)
    {
      var i := 0;
      while i < batch.Length
        invariant 0 <= i <= batch.Length
        invariant forall j | 0 <= j < i ::
                    batch[j] == old(batch[j]).(linkId := link.id, sequenceLastChecked := link.currentSequence)
        invariant forall j | i <= j < batch.Length :: batch[j] == old(batch[j])
      {
        batch[i] := batch[i].(linkId := link.id, sequenceLastChecked := link.currentSequence);
        i := i + 1;
      }
    }

    /** The promise chain of `saveCars`: `saveCar` on each input object, in order. */
    method SaveBatch(batch: array<Car>)
      requires Valid()
      modifies this, batch
      ensures Valid()
      ensures cars == SaveAll(old(cars), old(batch[..]))
      ensures batch[..] == Instances(old(cars), old(batch[..]))
      ensures sequences == old(sequences) && nextSequenceId == old(nextSequenceId)
    {
      ghost var insts, start := batch[..], cars;
      var i := 0;
      while i < batch.Length
        invariant 0 <= i <= batch.Length
        invariant Valid()
        invariant cars == SaveAll(start, insts[..i])
        invariant forall j | 0 <= j < i :: batch[j] == InstanceAfter(SaveAll(start, insts[..j]), insts[j])
        invariant forall j | i <= j < batch.Length :: batch[j] == insts[j]
        invariant sequences == old(sequences) && nextSequenceId == old(nextSequenceId)
      {
        SaveAllSnoc(start, insts, i);
        var after := SaveCar(batch[i]);
        batch[i] := after;
        i := i + 1;
      }
      assert insts[..i] == insts;
      InstancesOf(start, insts, batch[..]);
    }

    /**
     * `saveCars`: nothing happens for an empty batch; otherwise every input
     * object is stamped with the link and the pass, saved in input order,
     * the link's rows are classified and the counts written to the pass's
     * sequence row.
     */
    method SaveCars(batch: array<Car>, link: LinkPass) returns (result: Option<Outcome>)
      requires Valid()
      modifies this, batch
      ensures Valid()
      ensures result.None? <==> batch.Length == 0
      ensures result.None? ==> cars == old(cars) && sequences == old(sequences) && batch[..] == old(batch[..])
      ensures result.Some? ==> cars == SaveAll(old(cars), Stamp(old(batch[..]), link))
      ensures result.Some? ==> batch[..] == Instances(old(cars), Stamp(old(batch[..]), link))
      ensures result.Some? ==> ClassifiedAs(result.value, cars, link)
      ensures result.Some? && link.currentSequence in old(sequences) ==>
                sequences == old(sequences)[link.currentSequence := old(sequences)[link.currentSequence].(
                  carsAdded := |result.value.created|, carsRemoved := |result.value.removed|,
                  carsNotChanged := |result.value.notChanged|)]
      ensures result.Some? && link.currentSequence !in old(sequences) ==> sequences == old(sequences)
      ensures old(cars).Keys <= cars.Keys && nextSequenceId == old(nextSequenceId)
    {
      if batch.Length == 0 {
        return None;
      }
      StampBatch(batch, link);
      SaveBatch(batch);
      SaveAllAt(old(cars), Stamp(old(batch[..]), link), link.currentSequence, CarKey(0, 0));
      StampedKeys(old(batch[..]), link);
      var rows := FindAllByLink(link.id);
      var out := Classify(rows, link.currentSequence);
      ClassifyRowsOfLink(rows, cars, link);
      UpdateSequence(link.currentSequence, |out.created|, |out.removed|, |out.notChanged|);
      result := Some(out);
    }
  }
}
