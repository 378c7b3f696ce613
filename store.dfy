/**
 * The car store and the upsert policy that fills it. The database is a
 * sequence of cars (in insertion order, each with a fresh id) and a set of
 * (car id, image url) pairs: an image belongs to exactly one car. Saving a
 * batch is specified by `SaveAll`, a fold of `SaveRecord` over the batch;
 * the `CarStore` class performs it in place and is proved to agree.
 */
module Store {
  import opened Wrappers
  import opened Fields

  datatype Car = Car(
    id: nat,
    brand: string,
    model: string,
    year: nat,
    price: Option<nat>,
    mileage: Option<nat>,
    lotNumber: Option<string>,
    lotUrl: Option<string>,
    engineVolume: Option<string>,
    auctionDate: Option<string>)

  datatype StoreState = StoreState(cars: seq<Car>, images: set<(nat, string)>, nextId: nat)

  // ---------------------------------------------------------------------
  // Consistency of a store
  // ---------------------------------------------------------------------

  predicate IdsIncreasing(cars: seq<Car>) {
    forall i, j :: 0 <= i < j < |cars| ==> cars[i].id < cars[j].id
  }

  predicate IdsBelow(cars: seq<Car>, next: nat) {
    forall i :: 0 <= i < |cars| ==> cars[i].id < next
  }

  /** No two cars share a lot number, and a stored lot number is never empty. */
  predicate LotsUnique(cars: seq<Car>) {
    (forall i, j :: 0 <= i < j < |cars| && cars[i].lotNumber.Some? ==> cars[i].lotNumber != cars[j].lotNumber)
    && (forall i :: 0 <= i < |cars| && cars[i].lotNumber.Some? ==> cars[i].lotNumber.value != "")
  }

  predicate HasId(cars: seq<Car>, id: nat) {
    exists k :: 0 <= k < |cars| && cars[k].id == id
  }

  /** Every image belongs to a car of the store. */
  predicate ImagesOwned(images: set<(nat, string)>, cars: seq<Car>) {
    forall p :: p in images ==> HasId(cars, p.0)
  }

  predicate ValidState(s: StoreState) {
    IdsIncreasing(s.cars) && IdsBelow(s.cars, s.nextId) && LotsUnique(s.cars) && ImagesOwned(s.images, s.cars)
  }

  // ---------------------------------------------------------------------
  // The upsert policy
  // ---------------------------------------------------------------------

  /** A record is skipped when its brand or its year is missing or falsy ("" or 0). */
  predicate Persistable(c: Candidate) {
    c.brand.Some? && c.brand.value != "" && c.year.Some? && c.year.value != 0
  }

  /** The record carries a truthy lot number, so it is looked up by lot. */
  predicate HasLot(c: Candidate) {
    c.lotNumber.Some? && c.lotNumber.value != ""
  }

  function ImagesOf(c: Candidate): seq<string> {
    c.images.GetOr([])
  }

  /** The position of the first car with lot number `lot`, scanning from `k`. */
  function FindLotFrom(cars: seq<Car>, lot: string, k: nat): (r: Option<nat>)
    requires k <= |cars|
    ensures r.Some? ==> k <= r.value < |cars| && cars[r.value].lotNumber == Some(lot)
    ensures r.None? ==> forall j :: k <= j < |cars| ==> cars[j].lotNumber != Some(lot)
    decreases |cars| - k
  {
    if k == |cars| then None
    else if cars[k].lotNumber == Some(lot) then Some(k)
    else FindLotFrom(cars, lot, k + 1)
  }

  function FindByLot(cars: seq<Car>, lot: string): (r: Option<nat>)
    ensures r.Some? ==> r.value < |cars| && cars[r.value].lotNumber == Some(lot)
    ensures r.None? <==> forall j :: 0 <= j < |cars| ==> cars[j].lotNumber != Some(lot)
  {
    FindLotFrom(cars, lot, 0)
  }

  /** The car created from a record; a falsy lot number is not stored. */
  function NewCar(c: Candidate, id: nat): (car: Car)
    requires Persistable(c)
    ensures car.id == id && car.brand == c.brand.value && car.year == c.year.value
    ensures car.lotNumber.Some? <==> HasLot(c)
    ensures HasLot(c) ==> car.lotNumber == c.lotNumber
  {
    Car(id, c.brand.value, c.model.GetOr(""), c.year.value, c.price, c.mileage,
        if HasLot(c) then c.lotNumber else None, c.lotUrl, c.engineVolume, c.auctionDate)
  }

  function UrlPairs(id: nat, urls: seq<string>): set<(nat, string)> {
    set u | u in urls :: (id, u)
  }

  /**
   * Get-or-create of each (car, url) pair in turn: the new set of images
   * and how many pairs were new.
   */
  function AddImages(images: set<(nat, string)>, id: nat, urls: seq<string>): (r: (set<(nat, string)>, nat))
    ensures r.0 == images + UrlPairs(id, urls)
    ensures |r.0| == |images| + r.1
  {
    if urls == [] then (images, 0)
    else
      var init := urls[..|urls| - 1];
      var u := urls[|urls| - 1];
      var prev := AddImages(images, id, init);
      UrlPairsSnoc(id, urls);
      if (id, u) in prev.0 then prev
      else
        CardAddOne(prev.0, (id, u));
        (prev.0 + {(id, u)}, prev.1 + 1)
  }

  /** The new set of images fixes both results of the get-or-create loop. */
  lemma AddImagesDetermined(images: set<(nat, string)>, id: nat, urls: seq<string>, after: set<(nat, string)>, added: nat)
    requires after == images + UrlPairs(id, urls) && |after| == |images| + added
    ensures AddImages(images, id, urls) == (after, added)
  {
  }

  lemma UrlPairsSnoc(id: nat, urls: seq<string>)
    requires urls != []
    ensures UrlPairs(id, urls) == UrlPairs(id, urls[..|urls| - 1]) + {(id, urls[|urls| - 1])}
  {
    assert urls == urls[..|urls| - 1] + [urls[|urls| - 1]];
  }

  lemma CardAddOne(s: set<(nat, string)>, x: (nat, string))
    requires x !in s
    ensures |s + {x}| == |s| + 1
  {
  }

  /**
   * Saving one record: the new store, whether a car was created (0 or 1)
   * and how many images were created.
   */
  function SaveRecord(s: StoreState, c: Candidate): (r: (StoreState, nat, nat))
    ensures !Persistable(c) ==> r == (s, 0, 0)
    ensures r.1 <= 1 && |r.0.cars| == |s.cars| + r.1 && r.0.cars[..|s.cars|] == s.cars
    ensures s.images <= r.0.images && |r.0.images| == |s.images| + r.2
    ensures r.0.nextId == s.nextId + r.1
    ensures Persistable(c) && !HasLot(c) ==> r.1 == 1
    ensures Persistable(c) && HasLot(c) && FindByLot(s.cars, c.lotNumber.value).Some? ==> r.0.cars == s.cars
  {
    if !Persistable(c) then (s, 0, 0)
    else
      var found := if HasLot(c) then FindByLot(s.cars, c.lotNumber.value) else None;
      var id := if found.Some? then s.cars[found.value].id else s.nextId;
      var cars := if found.Some? then s.cars else s.cars + [NewCar(c, s.nextId)];
      var created := if found.Some? then 0 else 1;
      var added := AddImages(s.images, id, ImagesOf(c));
      assert cars[..|s.cars|] == s.cars;
      (StoreState(cars, added.0, s.nextId + created), created, added.1)
  }

  /** Saving a batch in order: the final store and the two totals. */
  function SaveAll(s: StoreState, batch: seq<Candidate>): (StoreState, nat, nat) {
    if batch == [] then (s, 0, 0)
    else
      var prev := SaveAll(s, batch[..|batch| - 1]);
      var last := SaveRecord(prev.0, batch[|batch| - 1]);
      (last.0, prev.1 + last.1, prev.2 + last.2)
  }

  // ---------------------------------------------------------------------
  // Facts about the policy
  // ---------------------------------------------------------------------

  /** The position of the existing car a record is filed under, if any. */
  function Target(s: StoreState, c: Candidate): Option<nat> {
    if HasLot(c) then FindByLot(s.cars, c.lotNumber.value) else None
  }

  /** The id of the car a persistable record is filed under. */
  function TargetId(s: StoreState, c: Candidate): nat {
    var t := Target(s, c);
    if t.Some? then s.cars[t.value].id else s.nextId
  }

  lemma SaveRecordUnfold(s: StoreState, c: Candidate)
    requires Persistable(c)
    ensures var r := SaveRecord(s, c).0;
            r.images == s.images + UrlPairs(TargetId(s, c), ImagesOf(c))
            && r.cars == (if Target(s, c).Some? then s.cars else s.cars + [NewCar(c, s.nextId)])
  {
  }

  lemma AppendCarValid(s: StoreState, car: Car)
    requires ValidState(s) && car.id == s.nextId
    requires car.lotNumber.Some? ==> car.lotNumber.value != ""
    requires forall j :: 0 <= j < |s.cars| ==> s.cars[j].lotNumber != car.lotNumber || car.lotNumber.None?
    ensures ValidState(StoreState(s.cars + [car], s.images, s.nextId + 1))
  {
    var cars := s.cars + [car];
    forall p | p in s.images
      ensures HasId(cars, p.0)
    {
      var k :| 0 <= k < |s.cars| && s.cars[k].id == p.0;
      assert cars[k].id == p.0;
    }
  }

  lemma AddOwnedImages(cars: seq<Car>, images: set<(nat, string)>, id: nat, urls: seq<string>)
    requires ImagesOwned(images, cars) && HasId(cars, id)
    ensures ImagesOwned(images + UrlPairs(id, urls), cars)
  {
    forall p | p in UrlPairs(id, urls)
      ensures p.0 == id
    {
    }
  }

  /** Saving a record keeps the store consistent. */
  lemma SaveRecordValid(s: StoreState, c: Candidate)
    requires ValidState(s)
    ensures ValidState(SaveRecord(s, c).0)
  {
    if Persistable(c) {
      SaveRecordUnfold(s, c);
      var r := SaveRecord(s, c).0;
      var id := TargetId(s, c);
      var t := Target(s, c);
      if t.Some? {
        assert HasId(s.cars, id) by {
          assert s.cars[t.value].id == id;
        }
        AddOwnedImages(s.cars, s.images, id, ImagesOf(c));
      } else {
        var car := NewCar(c, s.nextId);
        AppendCarValid(s, car);
        var s1 := StoreState(s.cars + [car], s.images, s.nextId + 1);
        assert HasId(s1.cars, id) by {
          assert s1.cars[|s.cars|].id == id;
        }
        AddOwnedImages(s1.cars, s1.images, id, ImagesOf(c));
      }
    }
  }

  /** The totals count exactly the cars and the images that are new. */
  lemma {:induction false} SaveAllCounts(s: StoreState, batch: seq<Candidate>)
    ensures var r := SaveAll(s, batch);
            |r.0.cars| == |s.cars| + r.1 && r.0.cars[..|s.cars|] == s.cars
            && s.images <= r.0.images && |r.0.images| == |s.images| + r.2
  {
    if batch != [] {
      SaveAllCounts(s, batch[..|batch| - 1]);
      var prev := SaveAll(s, batch[..|batch| - 1]).0;
      var next := SaveRecord(prev, batch[|batch| - 1]).0;
      assert next.cars[..|s.cars|] == prev.cars[..|prev.cars|][..|s.cars|];
    }
  }

  lemma {:induction false} SaveAllValid(s: StoreState, batch: seq<Candidate>)
    requires ValidState(s)
    ensures ValidState(SaveAll(s, batch).0)
  {
    if batch != [] {
      SaveAllValid(s, batch[..|batch| - 1]);
      SaveRecordValid(SaveAll(s, batch[..|batch| - 1]).0, batch[|batch| - 1]);
    }
  }

  /** A batch with no persistable record changes nothing and counts nothing. */
  lemma {:induction false} SaveAllSkipsAll(s: StoreState, batch: seq<Candidate>)
    requires forall k :: 0 <= k < |batch| ==> !Persistable(batch[k])
    ensures SaveAll(s, batch) == (s, 0, 0)
  {
    if batch != [] {
      SaveAllSkipsAll(s, batch[..|batch| - 1]);
    }
  }

  /** Every url of the list is filed under car `id`. */
  predicate ImagesFiled(images: set<(nat, string)>, id: nat, urls: seq<string>) {
    forall u :: u in urls ==> (id, u) in images
  }

  /** The record's car exists under its lot number, with all its images. */
  predicate Stored(s: StoreState, c: Candidate)
    requires HasLot(c)
  {
    Persistable(c) ==>
      exists k :: 0 <= k < |s.cars| && s.cars[k].lotNumber == c.lotNumber && ImagesFiled(s.images, s.cars[k].id, ImagesOf(c))
  }

  /** Saving a record with a lot number leaves it stored. */
  lemma SaveRecordStores(s: StoreState, c: Candidate)
    requires HasLot(c)
    ensures Stored(SaveRecord(s, c).0, c)
  {
    if Persistable(c) {
      var r := SaveRecord(s, c).0;
      var found := FindByLot(s.cars, c.lotNumber.value);
      var k := if found.Some? then found.value else |s.cars|;
      assert r.cars[k].lotNumber == c.lotNumber;
      assert ImagesFiled(r.images, r.cars[k].id, ImagesOf(c));
    }
  }

  /** Saving more records never unstores one. */
  lemma StoredKept(s: StoreState, c: Candidate, d: Candidate)
    requires HasLot(c) && Stored(s, c)
    ensures Stored(SaveRecord(s, d).0, c)
  {
    if Persistable(c) {
      var r := SaveRecord(s, d).0;
      var k :| 0 <= k < |s.cars| && s.cars[k].lotNumber == c.lotNumber && ImagesFiled(s.images, s.cars[k].id, ImagesOf(c));
      assert r.cars[k] == s.cars[k];
    }
  }

  /** Under unique lot numbers, the car holding a lot is the one found by lot. */
  lemma FindUniqueLot(cars: seq<Car>, k: nat, lot: string)
    requires LotsUnique(cars) && k < |cars| && cars[k].lotNumber == Some(lot)
    ensures FindByLot(cars, lot) == Some(k)
  {
    var j := FindByLot(cars, lot).value;
    assert cars[j].lotNumber == cars[k].lotNumber;
  }

  /** Saving a stored record again is a no-op that counts nothing. */
  lemma SaveStoredRecord(s: StoreState, c: Candidate)
    requires ValidState(s) && HasLot(c) && Stored(s, c)
    ensures SaveRecord(s, c) == (s, 0, 0)
  {
    if Persistable(c) {
      var k :| 0 <= k < |s.cars| && s.cars[k].lotNumber == c.lotNumber && ImagesFiled(s.images, s.cars[k].id, ImagesOf(c));
      FindUniqueLot(s.cars, k, c.lotNumber.value);
      SaveRecordUnfold(s, c);
      var r := SaveRecord(s, c);
      assert r.0.images == s.images;
      assert r.0.cars == s.cars;
    }
  }

  /** After a batch is saved, every record of it with a lot number is stored. */
  lemma {:induction false} SaveAllStores(s: StoreState, batch: seq<Candidate>)
    requires forall k :: 0 <= k < |batch| ==> HasLot(batch[k])
    ensures forall k :: 0 <= k < |batch| ==> Stored(SaveAll(s, batch).0, batch[k])
  {
    if batch != [] {
      var init := batch[..|batch| - 1];
      var last := batch[|batch| - 1];
      SaveAllStores(s, init);
      var prev := SaveAll(s, init).0;
      forall k | 0 <= k < |batch|
        ensures Stored(SaveAll(s, batch).0, batch[k])
      {
        if k < |init| {
          assert batch[k] == init[k];
          StoredKept(prev, batch[k], last);
        } else {
          SaveRecordStores(prev, last);
        }
      }
    }
  }

  /** Saving records that are all stored already is a no-op. */
  lemma {:induction false} SaveAllOfStored(s: StoreState, batch: seq<Candidate>)
    requires ValidState(s)
    requires forall k :: 0 <= k < |batch| ==> HasLot(batch[k]) && Stored(s, batch[k])
    ensures SaveAll(s, batch) == (s, 0, 0)
  {
    if batch != [] {
      var init := batch[..|batch| - 1];
      assert forall k :: 0 <= k < |init| ==> init[k] == batch[k];
      SaveAllOfStored(s, init);
      SaveStoredRecord(s, batch[|batch| - 1]);
    }
  }

  /**
   * Re-submitting a batch in which every record has a lot number creates
   * nothing: the second run returns (0, 0) and leaves the store as it was.
   */
  lemma Resubmit(s: StoreState, batch: seq<Candidate>)
    requires ValidState(s)
    requires forall k :: 0 <= k < |batch| ==> HasLot(batch[k])
    ensures var s1 := SaveAll(s, batch).0;
            SaveAll(s1, batch) == (s1, 0, 0)
  {
    SaveAllValid(s, batch);
    SaveAllStores(s, batch);
    SaveAllOfStored(SaveAll(s, batch).0, batch);
  }

  /** Two records with the same lot number create one car, counted once. */
  lemma SameLotOnce(s: StoreState, c: Candidate, d: Candidate)
    requires ValidState(s) && HasLot(c) && Persistable(c)
    requires d.lotNumber == c.lotNumber
    ensures var first := SaveRecord(s, c).0;
            var second := SaveRecord(first, d);
            second.1 == 0 && second.0.cars == first.cars
  {
    SaveRecordStores(s, c);
    var first := SaveRecord(s, c).0;
    var k :| 0 <= k < |first.cars| && first.cars[k].lotNumber == c.lotNumber
             && ImagesFiled(first.images, first.cars[k].id, ImagesOf(c));
    assert FindByLot(first.cars, d.lotNumber.value).Some?;
  }

  // ---------------------------------------------------------------------
  // Cascading delete
  // ---------------------------------------------------------------------

  /** The cars other than the one with id `id`, in order. */
  function WithoutCar(cars: seq<Car>, id: nat): (r: seq<Car>)
    ensures |r| <= |cars|
    ensures forall x :: x in r <==> x in cars && x.id != id
  {
    if cars == [] then []
    else WithoutCar(cars[..|cars| - 1], id) + if cars[|cars| - 1].id == id then [] else [cars[|cars| - 1]]
  }

  function DeleteCarSpec(s: StoreState, id: nat): StoreState {
    StoreState(WithoutCar(s.cars, id), (set p | p in s.images && p.0 != id), s.nextId)
  }

  lemma SnocCarKeeps(cars: seq<Car>, last: Car)
    requires IdsIncreasing(cars) && LotsUnique(cars)
    requires last.lotNumber.Some? ==> last.lotNumber.value != ""
    requires forall x :: x in cars ==> x.id < last.id && (x.lotNumber.Some? ==> x.lotNumber != last.lotNumber)
    ensures IdsIncreasing(cars + [last]) && LotsUnique(cars + [last])
  {
    var r := cars + [last];
    forall i | 0 <= i < |cars|
      ensures r[i].id < last.id && (r[i].lotNumber.Some? ==> r[i].lotNumber != last.lotNumber)
    {
      assert r[i] == cars[i] && cars[i] in cars;
    }
  }

  lemma {:induction false} WithoutCarKeeps(cars: seq<Car>, id: nat)
    requires IdsIncreasing(cars) && LotsUnique(cars)
    ensures IdsIncreasing(WithoutCar(cars, id)) && LotsUnique(WithoutCar(cars, id))
  {
    if cars != [] {
      var init := cars[..|cars| - 1];
      var last := cars[|cars| - 1];
      WithoutCarKeeps(init, id);
      var r0 := WithoutCar(init, id);
      forall x | x in r0
        ensures x.id < last.id && (x.lotNumber.Some? ==> x.lotNumber != last.lotNumber)
      {
        var k :| 0 <= k < |init| && init[k] == x;
        assert cars[k] == x;
      }
      if last.id != id {
        SnocCarKeeps(r0, last);
      }
    }
  }

  /** Deleting a car deletes its images and keeps the store consistent. */
  lemma DeleteCarValid(s: StoreState, id: nat)
    requires ValidState(s)
    ensures var r := DeleteCarSpec(s, id);
            ValidState(r) && !HasId(r.cars, id)
            && forall p :: p in r.images <==> p in s.images && p.0 != id
  {
    var r := DeleteCarSpec(s, id);
    WithoutCarKeeps(s.cars, id);
    forall p | p in r.images
      ensures HasId(r.cars, p.0)
    {
      var k :| 0 <= k < |s.cars| && s.cars[k].id == p.0;
      assert s.cars[k] in r.cars;
    }
    forall k | 0 <= k < |r.cars|
      ensures r.cars[k].id != id
    {
      assert r.cars[k] in r.cars;
    }
  }

  // ---------------------------------------------------------------------
  // The store as an object
  // ---------------------------------------------------------------------

  class CarStore {
    var cars: seq<Car>
    var images: set<(nat, string)>
    var nextId: nat

    function State(): StoreState
      reads this
    {
      StoreState(cars, images, nextId)
    }

    ghost predicate Valid()
      reads this
    {
      ValidState(State())
    }

    constructor ()
      ensures Valid() && cars == [] && images == {} && nextId == 1
    {
      cars := [];
      images := {};
      nextId := 1;
    }

    /** Get-or-create of the pair (id, url) for every url in turn. */
    method AddImagesInPlace(id: nat, urls: seq<string>) returns (added: nat)
      modifies this
      ensures cars == old(cars) && nextId == old(nextId)
      ensures (images, added) == AddImages(old(images), id, urls)
    {
      added := 0;
      var before := images;
      for m := 0 to |urls|
        invariant cars == old(cars) && nextId == old(nextId)
        invariant images == before + UrlPairs(id, urls[..m])
        invariant |images| == |before| + added
      {
        var u := urls[m];
        UrlPairsSnoc(id, urls[..m + 1]);
        assert urls[..m + 1][..m] == urls[..m];
        if (id, u) !in images {
          CardAddOne(images, (id, u));
          images := images + {(id, u)};
          added := added + 1;
        }
      }
      assert urls[..|urls|] == urls;
      AddImagesDetermined(before, id, urls, images, added);
    }

    /** One iteration of the upsert loop. */
    method SaveRecordInPlace(c: Candidate) returns (created: nat, added: nat)
      modifies this
      ensures (State(), created, added) == SaveRecord(old(State()), c)
    {
      created, added := 0, 0;
      if Persistable(c) {
        var found := if HasLot(c) then FindByLot(cars, c.lotNumber.value) else None;
        var id: nat;
        if found.Some? {
          id := cars[found.value].id;
        } else {
          id, created := nextId, 1;
          cars := cars + [NewCar(c, nextId)];
          nextId := nextId + 1;
        }
        added := AddImagesInPlace(id, ImagesOf(c));
      }
    }

    /**
     * Upserts every record of the batch in order and returns how many cars
     * and how many images were created.
     */
    method SaveToDatabase(batch: seq<Candidate>) returns (carsCount: nat, imagesCount: nat)
      requires Valid()
      modifies this
      ensures Valid()
      ensures (State(), carsCount, imagesCount) == SaveAll(old(State()), batch)
    {
      carsCount, imagesCount := 0, 0;
      var start := State();
      for k := 0 to |batch|
        invariant State() == SaveAll(start, batch[..k]).0
        invariant carsCount == SaveAll(start, batch[..k]).1
        invariant imagesCount == SaveAll(start, batch[..k]).2
      {
        assert batch[..k + 1][..k] == batch[..k];
        var created, added := SaveRecordInPlace(batch[k]);
        carsCount, imagesCount := carsCount + created, imagesCount + added;
      }
      assert batch[..|batch|] == batch;
      SaveAllValid(start, batch);
    }

    /** Deletes the car with id `id` and, by cascade, its images. */
    method DeleteCar(id: nat)
      requires Valid()
      modifies this
      ensures Valid()
      ensures State() == DeleteCarSpec(old(State()), id)
      ensures !HasId(cars, id) && forall p :: p in images ==> p.0 != id
    {
      DeleteCarValid(State(), id);
      cars := WithoutCar(cars, id);
      images := (set p | p in images && p.0 != id);
    }
  }
}
