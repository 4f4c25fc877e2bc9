/** The in-memory prototype (main.py): a dictionary from id to record and a
    counter for the next id, with create, lookup, partial update, delete and
    an unpaginated filtered search. */
module Prototype {
  import opened Wrappers
  import opened Text
  import opened Listing
  import Schemas

  type Timestamp = Schemas.Timestamp

  /** The request body of a create. No field constraints; `created_at` is
      optional and, when absent, is set to the current time on parsing. */
  datatype Advertisement = Advertisement(
    title: string,
    description: string,
    price: real,
    author: string,
    createdAt: Option<Timestamp>)

  /** A stored record: the advertisement plus its id. */
  datatype AdvertisementOut = AdvertisementOut(
    title: string,
    description: string,
    price: real,
    author: string,
    createdAt: Timestamp,
    id: int)

  /** A partial update as a field mask. */
  datatype AdvertisementUpdate = AdvertisementUpdate(
    title: Patch<string>,
    description: Patch<string>,
    price: Patch<real>,
    author: Patch<string>)

  /** `ad.model_copy(update=ad_update.model_dump(exclude_unset=True))`. */
  function ModelCopy(ad: AdvertisementOut, u: AdvertisementUpdate): (r: AdvertisementOut)
  {
    ad.(title := u.title.Over(ad.title),
        description := u.description.Over(ad.description),
        price := u.price.Over(ad.price),
        author := u.author.Over(ad.author))
  }

  /** An update replaces exactly the set fields: `id`, `created_at` and every
      unset field are kept, and a set field takes the supplied value. */
  lemma ModelCopyWritesOnlySetFields(ad: AdvertisementOut, u: AdvertisementUpdate)
    ensures ModelCopy(ad, u).id == ad.id && ModelCopy(ad, u).createdAt == ad.createdAt
    ensures ModelCopy(ad, u).title == (if u.title.Set? then u.title.value else ad.title)
    ensures ModelCopy(ad, u).description == (if u.description.Set? then u.description.value else ad.description)
    ensures ModelCopy(ad, u).price == (if u.price.Set? then u.price.value else ad.price)
    ensures ModelCopy(ad, u).author == (if u.author.Set? then u.author.value else ad.author)
    ensures u == AdvertisementUpdate(Unset, Unset, Unset, Unset) ==> ModelCopy(ad, u) == ad
  {
  }

  /** A response that either carries a value or is the 404 "Advertisement not found". */
  datatype Response<+T> = Ok(value: T) | NotFound

  /** The body of a successful delete, `{"status": "deleted"}`. */
  datatype Status = Deleted

  class Database {
    /** The global `database` dict. */
    var database: map<int, AdvertisementOut>
    /** The global `next_id` counter. */
    var nextId: int

    /** Every key lies below the counter and is the id of its record. */
    ghost predicate Valid()
      reads this
    {
      && 1 <= nextId
      && forall k :: k in database ==> 1 <= k < nextId && database[k].id == k
    }

    constructor ()
      ensures Valid() && database == map[] && nextId == 1
    {
      database := map[];
      nextId := 1;
    }

    /** `list(database.values())`: insertion order, which is ascending id
        order because ids are inserted in increasing order and an update
        keeps its key's position. */
    function Values(): seq<AdvertisementOut>
      reads this
    {
      Ascending(database, nextId)
    }

    /** `create_ad`: the record is stored under `next_id` with `id == next_id`,
        keeping a client-supplied `created_at`, and the counter moves on by one. */
    method CreateAd(ad: Advertisement, now: Timestamp) returns (r: AdvertisementOut)
      requires Valid()
      modifies this
      ensures Valid()
      ensures r == AdvertisementOut(ad.title, ad.description, ad.price, ad.author, ad.createdAt.GetOr(now), old(nextId))
      ensures forall k :: k in old(database) ==> k < r.id
      ensures database == old(database)[r.id := r]
      ensures nextId == old(nextId) + 1
    {
      r := AdvertisementOut(ad.title, ad.description, ad.price, ad.author, ad.createdAt.GetOr(now), nextId);
      database := database[nextId := r];
      nextId := nextId + 1;
    }

    /** `get_ad`: the stored record, or not-found. */
    method GetAd(id: int) returns (r: Response<AdvertisementOut>)
      requires Valid()
      ensures r.Ok? <==> id in database
      ensures r.Ok? ==> r.value == database[id] && r.value.id == id
    {
      r := if id in database then Ok(database[id]) else NotFound;
    }

    /** `update_ad`: not-found for an absent id, otherwise the one record is
        replaced by its copy with the set fields overwritten. */
    method UpdateAd(id: int, u: AdvertisementUpdate) returns (r: Response<AdvertisementOut>)
      requires Valid()
      modifies this
      ensures Valid() && nextId == old(nextId)
      ensures id !in old(database) ==> r == NotFound && database == old(database)
      ensures id in old(database) ==>
                r == Ok(ModelCopy(old(database)[id], u)) && database == old(database)[id := r.value]
    {
      var found := GetAd(id);
      if found.NotFound? {
        return NotFound;
      }
      var updated := ModelCopy(found.value, u);
      database := database[id := updated];
      r := Ok(updated);
    }

    /** `delete_ad`: removes exactly that key; not-found if it is absent. The
        counter is not touched, so the id is never handed out again. */
    method DeleteAd(id: int) returns (r: Response<Status>)
      requires Valid()
      modifies this
      ensures Valid() && nextId == old(nextId)
      ensures r == if id in old(database) then Ok(Deleted) else NotFound
      ensures database == old(database) - {id}
    {
      var found := GetAd(id);
      if found.NotFound? {
        return NotFound;
      }
      database := database - {id};
      r := Ok(Deleted);
    }
  }

  // ---------------------------------------------------------------------
  // Search

  /** The query parameters of `search_ads`. */
  datatype Query = Query(
    title: Option<string>,
    author: Option<string>,
    minPrice: Option<real>,
    maxPrice: Option<real>)

  /** `if on: results = [ad for ad in results if p(ad)]`. */
  function Keep(results: seq<AdvertisementOut>, on: bool, p: AdvertisementOut -> bool): seq<AdvertisementOut> {
    if on then Filter(results, p) else results
  }

  predicate TitleHas(ad: AdvertisementOut, q: Query) { ContainsIgnoreCase(ad.title, q.title.GetOr("")) }
  predicate AuthorHas(ad: AdvertisementOut, q: Query) { ContainsIgnoreCase(ad.author, q.author.GetOr("")) }
  predicate AtLeastMin(ad: AdvertisementOut, q: Query) { ad.price >= q.minPrice.GetOr(0.0) }
  predicate AtMostMax(ad: AdvertisementOut, q: Query) { ad.price <= q.maxPrice.GetOr(0.0) }

  /** `search_ads`: the four comprehensions, one after the other. */
  function SearchAds(values: seq<AdvertisementOut>, q: Query): (r: seq<AdvertisementOut>)
    ensures |r| <= |values|
    ensures forall a :: a in r ==> a in values
  {
    var results := Keep(values, Truthy(q.title), ad => TitleHas(ad, q));
    var results := Keep(results, Truthy(q.author), ad => AuthorHas(ad, q));
    var results := Keep(results, q.minPrice.Some?, ad => AtLeastMin(ad, q));
    Keep(results, q.maxPrice.Some?, ad => AtMostMax(ad, q))
  }

  /** What a matching record is: each supplied filter holds of it. */
  predicate Matches(q: Query, ad: AdvertisementOut) {
    && (Truthy(q.title) ==> ContainsIgnoreCase(ad.title, q.title.value))
    && (Truthy(q.author) ==> ContainsIgnoreCase(ad.author, q.author.value))
    && (q.minPrice.Some? ==> ad.price >= q.minPrice.value)
    && (q.maxPrice.Some? ==> ad.price <= q.maxPrice.value)
  }

  /** A comprehension that may be skipped is a filter by "skipped or holds". */
  lemma KeepIsFilter(s: seq<AdvertisementOut>, on: bool, p: AdvertisementOut -> bool, c: AdvertisementOut -> bool)
    requires forall x :: c(x) == (!on || p(x))
    ensures Keep(s, on, p) == Filter(s, c)
  {
    if on {
      FilterCongruent(s, p, c);
    } else {
      FilterKeepsAll(s, c);
    }
  }

  /** The successive comprehensions select exactly the records that satisfy
      every supplied filter, in the order of the store. */
  lemma SearchAdsIsConjunction(values: seq<AdvertisementOut>, q: Query)
    ensures SearchAds(values, q) == Filter(values, ad => Matches(q, ad))
  {
    var p1 := (ad: AdvertisementOut) => TitleHas(ad, q);
    var p2 := (ad: AdvertisementOut) => AuthorHas(ad, q);
    var p3 := (ad: AdvertisementOut) => AtLeastMin(ad, q);
    var p4 := (ad: AdvertisementOut) => AtMostMax(ad, q);
    var o1, o2, o3, o4 := Truthy(q.title), Truthy(q.author), q.minPrice.Some?, q.maxPrice.Some?;
    var c1 := (x: AdvertisementOut) => !o1 || p1(x);
    var c2 := (x: AdvertisementOut) => !o2 || p2(x);
    var c3 := (x: AdvertisementOut) => !o3 || p3(x);
    var c4 := (x: AdvertisementOut) => !o4 || p4(x);
    var c12 := (x: AdvertisementOut) => c1(x) && c2(x);
    var c123 := (x: AdvertisementOut) => c12(x) && c3(x);
    var c1234 := (x: AdvertisementOut) => c123(x) && c4(x);
    assert SearchAds(values, q) == Filter(values, c1234) by {
      var r1 := Keep(values, o1, p1);
      var r2 := Keep(r1, o2, p2);
      var r3 := Keep(r2, o3, p3);
      assert SearchAds(values, q) == Keep(r3, o4, p4);
      KeepIsFilter(values, o1, p1, c1);
      KeepIsFilter(r1, o2, p2, c2);
      FilterTwice(values, c1, c2, c12);
      KeepIsFilter(r2, o3, p3, c3);
      FilterTwice(values, c12, c3, c123);
      KeepIsFilter(r3, o4, p4, c4);
      FilterTwice(values, c123, c4, c1234);
    }
    assert Filter(values, c1234) == Filter(values, ad => Matches(q, ad)) by {
      forall x | x in values ensures c1234(x) == Matches(q, x) {
        assert c1234(x) == ((!o1 || TitleHas(x, q)) && (!o2 || AuthorHas(x, q)) && (!o3 || AtLeastMin(x, q)) && (!o4 || AtMostMax(x, q)));
      }
      FilterCongruent(values, c1234, ad => Matches(q, ad));
    }
  }

  /** Every record in a search result satisfies every supplied filter, and
      every stored record that does is in the result. */
  lemma SearchAdsExactlyMatching(values: seq<AdvertisementOut>, q: Query)
    ensures forall a :: a in SearchAds(values, q) <==> a in values && Matches(q, a)
  {
    SearchAdsIsConjunction(values, q);
  }

  /** `min_price > max_price` returns an empty list. */
  lemma ContradictoryRangeIsEmpty(values: seq<AdvertisementOut>, q: Query)
    requires q.minPrice.Some? && q.maxPrice.Some? && q.minPrice.value > q.maxPrice.value
    ensures SearchAds(values, q) == []
  {
    SearchAdsIsConjunction(values, q);
    FilterKeepsNone(values, ad => Matches(q, ad));
  }

  /** A search of the database returns stored records only, each at most
      once, in ascending id order. */
  lemma SearchReturnsStoredRecords(db: Database, q: Query)
    requires db.Valid()
    ensures forall a :: a in SearchAds(db.Values(), q) ==> a.id in db.database && db.database[a.id] == a
    ensures forall i, j :: 0 <= i < j < |SearchAds(db.Values(), q)| ==>
              SearchAds(db.Values(), q)[i].id < SearchAds(db.Values(), q)[j].id
  {
    AscendingIsTable(db.database, db.nextId);
    SearchAdsIsConjunction(db.Values(), q);
    FilterKeepsOrder(db.Values(), ad => Matches(q, ad), (a: AdvertisementOut) => a.id);
  }

  /** Create two records, delete the first twice, look it up. */
  method Scenario(t0: Timestamp)
    returns (first: AdvertisementOut, second: AdvertisementOut, removed: Response<Status>,
             again: Response<Status>, after: Response<AdvertisementOut>, kept: Response<AdvertisementOut>)
    ensures first.id == 1 && second.id == 2 && first.createdAt == t0
    ensures removed == Ok(Deleted) && again == NotFound && after == NotFound
    ensures kept == Ok(second)
  {
    var db := new Database();
    first := db.CreateAd(Advertisement("Bike", "red", 10.0, "Al", None), t0);
    second := db.CreateAd(Advertisement("Car", "blue", 500.0, "Bo", Some(t0 + 1)), t0);
    removed := db.DeleteAd(1);
    again := db.DeleteAd(1);
    after := db.GetAd(1);
    kept := db.GetAd(2);
  }
}
