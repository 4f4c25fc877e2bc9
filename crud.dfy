/** The durable store (app/crud.py): a table of advertisement rows keyed by a
    serial primary key, with create, point lookup, partial update, delete and
    a filtered, paginated search. Each call is one committed transaction. */
module Crud {
  import opened Wrappers
  import opened Text
  import opened Listing
  import opened Schemas

  // ---------------------------------------------------------------------
  // Partial update

  /** One `(key, value)` pair of `ad_update.model_dump(exclude_unset=True)`. */
  datatype Assignment =
    | SetTitle(title: Option<string>)
    | SetDescription(description: Option<string>)
    | SetPrice(price: Option<real>)
    | SetAuthor(author: Option<string>)

  /** The explicitly set fields of an update, in declaration order. */
  function UpdateData(u: UpdateRequest): (r: seq<Assignment>)
    ensures forall v :: SetTitle(v) in r <==> u.title == Set(v)
    ensures forall v :: SetDescription(v) in r <==> u.description == Set(v)
    ensures forall v :: SetPrice(v) in r <==> u.price == Set(v)
    ensures forall v :: SetAuthor(v) in r <==> u.author == Set(v)
    ensures u == UpdateRequest(Unset, Unset, Unset, Unset) <==> r == []
  {
    (if u.title.Set? then [SetTitle(u.title.value)] else [])
    + (if u.description.Set? then [SetDescription(u.description.value)] else [])
    + (if u.price.Set? then [SetPrice(u.price.value)] else [])
    + (if u.author.Set? then [SetAuthor(u.author.value)] else [])
  }

  /** Writing NULL into a NOT NULL column (title, price, author). */
  predicate NullWrite(a: Assignment) {
    a == SetTitle(None) || a == SetPrice(None) || a == SetAuthor(None)
  }

  /** The update sends an explicit null for a NOT NULL column; the commit
      then fails with an integrity error. */
  predicate WritesNull(u: UpdateRequest) {
    u.title == Set(None) || u.price == Set(None) || u.author == Set(None)
  }

  lemma NullWriteIffWritesNull(u: UpdateRequest)
    ensures (exists a :: a in UpdateData(u) && NullWrite(a)) <==> WritesNull(u)
  {
    if u.title == Set(None) { assert SetTitle(None) in UpdateData(u); }
    if u.price == Set(None) { assert SetPrice(None) in UpdateData(u); }
    if u.author == Set(None) { assert SetAuthor(None) in UpdateData(u); }
  }

  /** `setattr(db_ad, key, value)` for one pair. */
  function SetAttr(row: AdvertisementOut, a: Assignment): AdvertisementOut
    requires !NullWrite(a)
  {
    match a
    case SetTitle(t) => row.(title := t.value)
    case SetDescription(d) => row.(description := d)
    case SetPrice(p) => row.(price := p.value)
    case SetAuthor(s) => row.(author := s.value)
  }

  /** The pairs applied one after the other, first to last. */
  function Assign(row: AdvertisementOut, data: seq<Assignment>): AdvertisementOut
    requires forall a :: a in data ==> !NullWrite(a)
    decreases |data|
  {
    if data == [] then row else Assign(SetAttr(row, data[0]), data[1..])
  }

  /** The record after a partial update, field by field: a field the request
      set takes the new value, every other field (and `id`, `created_at`)
      keeps its value. */
  function Merged(row: AdvertisementOut, u: UpdateRequest): AdvertisementOut
    requires !WritesNull(u)
  {
    AdvertisementOut(
      row.id,
      if u.title.Set? then u.title.value.value else row.title,
      u.description.Over(row.description),
      if u.price.Set? then u.price.value.value else row.price,
      if u.author.Set? then u.author.value.value else row.author,
      row.createdAt)
  }

  lemma AssignIsMerged(row: AdvertisementOut, u: UpdateRequest)
    requires !WritesNull(u)
    ensures forall a :: a in UpdateData(u) ==> !NullWrite(a)
    ensures Assign(row, UpdateData(u)) == Merged(row, u)
  {
    var t := if u.title.Set? then [SetTitle(u.title.value)] else [];
    var d := if u.description.Set? then [SetDescription(u.description.value)] else [];
    var p := if u.price.Set? then [SetPrice(u.price.value)] else [];
    var s := if u.author.Set? then [SetAuthor(u.author.value)] else [];
    assert UpdateData(u) == ((t + d) + p) + s;
    AssignAppend(row, (t + d) + p, s);
    AssignAppend(row, t + d, p);
    AssignAppend(row, t, d);
    var r1 := AssignPiece(row, t);
    var r2 := AssignPiece(r1, d);
    var r3 := AssignPiece(r2, p);
    var r4 := AssignPiece(r3, s);
  }

  /** Applying zero or one pair. */
  lemma AssignPiece(row: AdvertisementOut, piece: seq<Assignment>) returns (r: AdvertisementOut)
    requires |piece| <= 1 && forall a :: a in piece ==> !NullWrite(a)
    ensures r == Assign(row, piece)
    ensures r == if piece == [] then row else SetAttr(row, piece[0])
  {
    r := Assign(row, piece);
    if piece != [] {
      assert piece[1..] == [];
    }
  }

  lemma AssignAppend(row: AdvertisementOut, a: seq<Assignment>, b: seq<Assignment>)
    requires forall x :: x in a + b ==> !NullWrite(x)
    ensures Assign(row, a + b) == Assign(Assign(row, a), b)
    decreases |a|
  {
    if a != [] {
      assert (a + b)[0] == a[0];
      assert (a + b)[1..] == a[1..] + b;
      AssignAppend(SetAttr(row, a[0]), a[1..], b);
    } else {
      assert a + b == b;
    }
  }

  /** The loop of `update_ad`: `setattr` for every explicitly set field. */
  method ApplyUpdate(row: AdvertisementOut, u: UpdateRequest) returns (r: AdvertisementOut)
    requires !WritesNull(u)
    ensures r == Merged(row, u)
  {
    var data := UpdateData(u);
    AssignIsMerged(row, u);
    r := row;
    var i := 0;
    while i < |data|
      invariant 0 <= i <= |data|
      invariant Assign(r, data[i..]) == Assign(row, data)
    {
      assert data[i..][0] == data[i] && data[i..][1..] == data[i + 1..];
      r := SetAttr(r, data[i]);
      i := i + 1;
    }
  }

  /** An update writes exactly the explicitly set fields: `id`, `created_at`
      and every unset field keep their previous values. */
  lemma {:induction false} MergedWritesOnlySetFields(row: AdvertisementOut, u: UpdateRequest)
    requires !WritesNull(u)
    ensures Merged(row, u).id == row.id && Merged(row, u).createdAt == row.createdAt
    ensures u.title == Unset ==> Merged(row, u).title == row.title
    ensures u.description == Unset ==> Merged(row, u).description == row.description
    ensures u.price == Unset ==> Merged(row, u).price == row.price
    ensures u.author == Unset ==> Merged(row, u).author == row.author
    ensures forall v :: u.title == Set(Some(v)) ==> Merged(row, u).title == v
    ensures forall v :: u.description == Set(v) ==> Merged(row, u).description == v
    ensures forall v :: u.price == Set(Some(v)) ==> Merged(row, u).price == v
    ensures forall v :: u.author == Set(Some(v)) ==> Merged(row, u).author == v
    ensures UpdateData(u) == [] ==> Merged(row, u) == row
  {
  }

  /** A validated update keeps a valid record valid (title and author stay
      non-empty and within bounds, the price stays positive). */
  lemma MergedStaysValid(row: AdvertisementOut, u: UpdateRequest)
    requires ValidBase(BaseOf(row)) && ValidUpdate(u) && !WritesNull(u)
    ensures ValidBase(BaseOf(Merged(row, u)))
  {
    assert UpdateFieldValid(u, Title) && UpdateFieldValid(u, Description);
    assert UpdateFieldValid(u, Price) && UpdateFieldValid(u, Author);
  }

  /** Sending the same update twice has the effect of sending it once. */
  lemma MergedIdempotent(row: AdvertisementOut, u: UpdateRequest)
    requires !WritesNull(u)
    ensures Merged(Merged(row, u), u) == Merged(row, u)
  {
  }

  // ---------------------------------------------------------------------
  // Search

  /** The optional search parameters of `search_ads`. */
  datatype Filters = Filters(
    title: Option<string>,
    description: Option<string>,
    author: Option<string>,
    price: Option<real>,
    minPrice: Option<real>,
    maxPrice: Option<real>)

  const NoFilters := Filters(None, None, None, None, None, None)

  /** One `.where(...)` clause of the query. */
  datatype Clause =
    | TitleLike(pattern: string)
    | DescriptionLike(pattern: string)
    | AuthorLike(pattern: string)
    | PriceEquals(price: real)
    | PriceAtLeast(price: real)
    | PriceAtMost(price: real)

  /** `column ILIKE '%pattern%'` etc. on one row; a NULL description never matches. */
  predicate Holds(c: Clause, a: AdvertisementOut) {
    match c
    case TitleLike(q) => ContainsIgnoreCase(a.title, q)
    case DescriptionLike(q) => a.description.Some? && ContainsIgnoreCase(a.description.value, q)
    case AuthorLike(q) => ContainsIgnoreCase(a.author, q)
    case PriceEquals(p) => a.price == p
    case PriceAtLeast(p) => a.price >= p
    case PriceAtMost(p) => a.price <= p
  }

  /** `if on: query = query.where(c)`. */
  function Where(cs: seq<Clause>, on: bool, c: Clause): seq<Clause> {
    if on then cs + [c] else cs
  }

  /** The clauses the query accumulates, in the order they are attached: text
      filters only when truthy, price filters whenever present. */
  function WhereClauses(f: Filters): seq<Clause> {
    var q := Where([], Truthy(f.title), TitleLike(f.title.GetOr("")));
    var q := Where(q, Truthy(f.description), DescriptionLike(f.description.GetOr("")));
    var q := Where(q, Truthy(f.author), AuthorLike(f.author.GetOr("")));
    var q := Where(q, f.price.Some?, PriceEquals(f.price.GetOr(0.0)));
    var q := Where(q, f.minPrice.Some?, PriceAtLeast(f.minPrice.GetOr(0.0)));
    Where(q, f.maxPrice.Some?, PriceAtMost(f.maxPrice.GetOr(0.0)))
  }

  predicate SatisfiesAll(cs: seq<Clause>, a: AdvertisementOut) {
    forall c :: c in cs ==> Holds(c, a)
  }

  /** Attaching a clause narrows the query to the rows that also satisfy it. */
  lemma WhereNarrows(cs: seq<Clause>, on: bool, c: Clause, a: AdvertisementOut)
    ensures SatisfiesAll(Where(cs, on, c), a) <==> SatisfiesAll(cs, a) && (on ==> Holds(c, a))
  {
    if on {
      assert c in cs + [c];
      assert forall x :: x in cs + [c] ==> x in cs || x == c;
    }
  }

  /** What a matching record is, filter by filter: each supplied filter is a
      condition the record must meet, an absent one constrains nothing. */
  predicate Matches(f: Filters, a: AdvertisementOut) {
    && (Truthy(f.title) ==> ContainsIgnoreCase(a.title, f.title.value))
    && (Truthy(f.description) ==> a.description.Some? && ContainsIgnoreCase(a.description.value, f.description.value))
    && (Truthy(f.author) ==> ContainsIgnoreCase(a.author, f.author.value))
    && (f.price.Some? ==> a.price == f.price.value)
    && (f.minPrice.Some? ==> a.price >= f.minPrice.value)
    && (f.maxPrice.Some? ==> a.price <= f.maxPrice.value)
  }

  /** The query's conjunction of clauses selects exactly the matching records. */
  lemma WhereMeansMatchesAt(f: Filters, a: AdvertisementOut)
    ensures SatisfiesAll(WhereClauses(f), a) <==> Matches(f, a)
  {
    var q1 := Where([], Truthy(f.title), TitleLike(f.title.GetOr("")));
    var q2 := Where(q1, Truthy(f.description), DescriptionLike(f.description.GetOr("")));
    var q3 := Where(q2, Truthy(f.author), AuthorLike(f.author.GetOr("")));
    var q4 := Where(q3, f.price.Some?, PriceEquals(f.price.GetOr(0.0)));
    var q5 := Where(q4, f.minPrice.Some?, PriceAtLeast(f.minPrice.GetOr(0.0)));
    WhereNarrows([], Truthy(f.title), TitleLike(f.title.GetOr("")), a);
    WhereNarrows(q1, Truthy(f.description), DescriptionLike(f.description.GetOr("")), a);
    WhereNarrows(q2, Truthy(f.author), AuthorLike(f.author.GetOr("")), a);
    WhereNarrows(q3, f.price.Some?, PriceEquals(f.price.GetOr(0.0)), a);
    WhereNarrows(q4, f.minPrice.Some?, PriceAtLeast(f.minPrice.GetOr(0.0)), a);
    WhereNarrows(q5, f.maxPrice.Some?, PriceAtMost(f.maxPrice.GetOr(0.0)), a);
  }

  lemma WhereMeansMatches(f: Filters)
    ensures forall a :: SatisfiesAll(WhereClauses(f), a) <==> Matches(f, a)
  {
    forall a ensures SatisfiesAll(WhereClauses(f), a) <==> Matches(f, a) {
      WhereMeansMatchesAt(f, a);
    }
  }

  /** The bounds the HTTP layer puts on a search. */
  predicate QueryBounds(f: Filters, limit: int, offset: int) {
    && 1 <= limit <= 1000
    && 0 <= offset
    && (f.price.Some? ==> f.price.value >= 0.0)
    && (f.minPrice.Some? ==> f.minPrice.value >= 0.0)
    && (f.maxPrice.Some? ==> f.maxPrice.value >= 0.0)
  }

  /** `search_ads` over the rows in the store's order: the rows satisfying
      every clause, then OFFSET and LIMIT. */
  function SearchAds(rows: seq<AdvertisementOut>, f: Filters, limit: int, offset: int): (r: seq<AdvertisementOut>)
    requires QueryBounds(f, limit, offset)
    ensures |r| <= limit
    ensures forall a :: a in r ==> a in rows && Matches(f, a)
  {
    WhereMeansMatches(f);
    Paginate(Filter(rows, a => SatisfiesAll(WhereClauses(f), a)), offset, limit)
  }

  /** The matching rows, in store order. */
  function Selected(rows: seq<AdvertisementOut>, f: Filters): seq<AdvertisementOut> {
    Filter(rows, a => Matches(f, a))
  }

  /** Pagination comes after filtering: the result is the page at `offset`
      of the matching rows, so it skips the first `offset` matches. */
  lemma SearchIsPageOfMatches(rows: seq<AdvertisementOut>, f: Filters, limit: int, offset: int)
    requires QueryBounds(f, limit, offset)
    ensures SearchAds(rows, f, limit, offset) == Paginate(Selected(rows, f), offset, limit)
  {
    WhereMeansMatches(f);
    FilterCongruent(rows, a => SatisfiesAll(WhereClauses(f), a), a => Matches(f, a));
  }

  /** Without filters, a search is a page of all rows. */
  lemma NoFiltersIsPage(rows: seq<AdvertisementOut>, limit: int, offset: int)
    requires 1 <= limit <= 1000 && 0 <= offset
    ensures SearchAds(rows, NoFilters, limit, offset) == Paginate(rows, offset, limit)
  {
    SearchIsPageOfMatches(rows, NoFilters, limit, offset);
    FilterKeepsAll(rows, a => Matches(NoFilters, a));
  }

  /** `min_price > max_price` is not an error: it matches nothing. */
  lemma ContradictoryRangeIsEmpty(rows: seq<AdvertisementOut>, f: Filters, limit: int, offset: int)
    requires QueryBounds(f, limit, offset)
    requires f.minPrice.Some? && f.maxPrice.Some? && f.minPrice.value > f.maxPrice.value
    ensures SearchAds(rows, f, limit, offset) == []
  {
    SearchIsPageOfMatches(rows, f, limit, offset);
    FilterKeepsNone(rows, a => Matches(f, a));
  }

  /** Text filters are tested for truthiness: an empty string is ignored. A
      description filter of "" would otherwise drop every row whose
      description is NULL. */
  lemma EmptyTextFiltersIgnored(rows: seq<AdvertisementOut>, f: Filters, limit: int, offset: int)
    requires QueryBounds(f, limit, offset)
    ensures SearchAds(rows, f.(title := Some("")), limit, offset) == SearchAds(rows, f.(title := None), limit, offset)
    ensures SearchAds(rows, f.(description := Some("")), limit, offset) == SearchAds(rows, f.(description := None), limit, offset)
    ensures SearchAds(rows, f.(author := Some("")), limit, offset) == SearchAds(rows, f.(author := None), limit, offset)
  {
    assert WhereClauses(f.(title := Some(""))) == WhereClauses(f.(title := None));
    assert WhereClauses(f.(description := Some(""))) == WhereClauses(f.(description := None));
    assert WhereClauses(f.(author := Some(""))) == WhereClauses(f.(author := None));
  }

  /** Price filters are tested with `is not None`: a price filter of 0 still
      applies, and since every stored price is positive it matches nothing. */
  lemma ZeroPriceStillFilters(rows: seq<AdvertisementOut>, f: Filters, limit: int, offset: int)
    requires QueryBounds(f, limit, offset)
    requires forall a :: a in rows ==> ValidPrice(a.price)
    requires f.price == Some(0.0)
    ensures SearchAds(rows, f, limit, offset) == []
  {
    SearchIsPageOfMatches(rows, f, limit, offset);
    FilterKeepsNone(rows, a => Matches(f, a));
  }

  lemma RedOccursInRedBike()
    ensures ContainsIgnoreCase("Red Bike", "Red")
  {
    assert LowerStr("Red") == "red";
    assert LowerStr("Red Bike") == "red bike";
    assert OccursAt("red bike", "red", 0);
  }

  /** A row with title "Red Bike" and price 50 and one with "Red Car" and
      price 500: `title=Red&max_price=100` returns only the first. */
  lemma RedBikeExample(bike: AdvertisementOut, car: AdvertisementOut)
    requires bike == AdvertisementOut(1, "Red Bike", None, 50.0, "Al", 0)
    requires car == AdvertisementOut(2, "Red Car", None, 500.0, "Al", 0)
    ensures SearchAds([bike, car], NoFilters.(title := Some("Red"), maxPrice := Some(100.0)), 100, 0) == [bike]
  {
    var f := NoFilters.(title := Some("Red"), maxPrice := Some(100.0));
    RedOccursInRedBike();
    assert Matches(f, bike);
    assert !Matches(f, car);
    SearchIsPageOfMatches([bike, car], f, 100, 0);
    assert [bike, car][1..] == [car];
    assert Selected([bike, car], f) == [bike] + Selected([car], f);
    assert Selected([car], f) == [];
  }

  // ---------------------------------------------------------------------
  // The table

  /** The outcome of `update_ad`: the updated row, `None` for an absent id, or
      the integrity error raised by the commit when a NOT NULL column would
      become NULL. */
  datatype UpdateOutcome = Updated(ad: AdvertisementOut) | NotFound | IntegrityError

  class AdTable {
    /** The committed rows, by primary key. */
    var rows: map<int, AdvertisementOut>
    /** The next value of the primary key's sequence. */
    var nextId: int

    /** Every key is an id the sequence has already handed out, each row
        carries its own key as `id`, and every row meets the field constraints. */
    ghost predicate Valid()
      reads this
    {
      && 1 <= nextId
      && forall k :: k in rows ==> 1 <= k < nextId && rows[k].id == k && ValidBase(BaseOf(rows[k]))
    }

    constructor ()
      ensures Valid() && rows == map[] && nextId == 1
    {
      rows := map[];
      nextId := 1;
    }

    /** The rows in ascending id order, the order searches read them in. */
    function Scan(): seq<AdvertisementOut>
      reads this
    {
      Ascending(rows, nextId)
    }

    /** `create_ad`: stores every supplied field unchanged under a fresh id,
        greater than every id handed out before, with the creation time. */
    method CreateAd(ad: AdvertisementCreate, now: Timestamp) returns (r: AdvertisementOut)
      requires Valid()
      modifies this
      ensures Valid()
      ensures BaseOf(r) == ad && r.id == old(nextId) && r.createdAt == now
      ensures forall k :: k in old(rows) ==> k < r.id
      ensures rows == old(rows)[r.id := r]
      ensures nextId == old(nextId) + 1
    {
      r := WithIdentity(ad, nextId, now);
      rows := rows[nextId := r];
      nextId := nextId + 1;
    }

    /** `get_ad`: the row whose id is `id`, or `None`. */
    method GetAd(id: int) returns (r: Option<AdvertisementOut>)
      requires Valid()
      ensures r.Some? <==> id in rows
      ensures r.Some? ==> r.value == rows[id] && r.value.id == id
    {
      r := if id in rows then Some(rows[id]) else None;
    }

    /** `update_ad`: writes exactly the set fields of one row. An absent id
        and a failed commit leave the table as it was. */
    method UpdateAd(id: int, u: AdvertisementUpdate) returns (r: UpdateOutcome)
      requires Valid()
      modifies this
      ensures Valid() && nextId == old(nextId)
      ensures id !in old(rows) ==> r == NotFound && rows == old(rows)
      ensures id in old(rows) && WritesNull(u) ==> r == IntegrityError && rows == old(rows)
      ensures id in old(rows) && !WritesNull(u) ==>
                r == Updated(Merged(old(rows)[id], u)) && rows == old(rows)[id := r.ad]
    {
      var found := GetAd(id);
      if found.None? {
        return NotFound;
      }
      if WritesNull(u) {
        return IntegrityError;
      }
      var row := ApplyUpdate(found.value, u);
      MergedStaysValid(found.value, u);
      rows := rows[id := row];
      r := Updated(row);
    }

    /** `delete_ad`: removes the row and reports whether there was one. */
    method DeleteAd(id: int) returns (removed: bool)
      requires Valid()
      modifies this
      ensures Valid() && nextId == old(nextId)
      ensures removed == (id in old(rows))
      ensures rows == old(rows) - {id}
    {
      var found := GetAd(id);
      if found.None? {
        return false;
      }
      rows := rows - {id};
      removed := true;
    }
  }

  /** The listing holds every row of the table once, in strictly ascending id
      order, and nothing else. */
  lemma ListingIsTable(t: AdTable)
    requires t.Valid()
    ensures |t.Scan()| == |t.rows|
    ensures forall k :: k in t.rows ==> t.rows[k] in t.Scan()
    ensures forall a :: a in t.Scan() ==> a.id in t.rows && t.rows[a.id] == a
    ensures forall i, j :: 0 <= i < j < |t.Scan()| ==> t.Scan()[i].id < t.Scan()[j].id
  {
    AscendingIsTable(t.rows, t.nextId);
  }

  /** A search of the table returns stored rows only, each at most once, in
      ascending id order. */
  lemma SearchReturnsStoredRows(t: AdTable, f: Filters, limit: int, offset: int)
    requires t.Valid() && QueryBounds(f, limit, offset)
    ensures forall a :: a in SearchAds(t.Scan(), f, limit, offset) ==> a.id in t.rows && t.rows[a.id] == a
    ensures forall i, j :: 0 <= i < j < |SearchAds(t.Scan(), f, limit, offset)| ==>
              SearchAds(t.Scan(), f, limit, offset)[i].id < SearchAds(t.Scan(), f, limit, offset)[j].id
  {
    ListingIsTable(t);
    var p := (a: AdvertisementOut) => SatisfiesAll(WhereClauses(f), a);
    FilterKeepsOrder(t.Scan(), p, (a: AdvertisementOut) => a.id);
  }

  /** The life of one listing: create, update the price, delete, delete again, look up. */
  method Scenario(t0: Timestamp)
    returns (created: AdvertisementOut, updated: UpdateOutcome, removed: bool, again: bool, after: Option<AdvertisementOut>)
    ensures created.id == 1 && created.title == "Bike" && created.price == 10.0 && created.createdAt == t0
    ensures updated.Updated? && updated.ad.title == "Bike" && updated.ad.price == 20.0
    ensures updated.Updated? && updated.ad.createdAt == t0
    ensures removed && !again && after == None
  {
    var t := new AdTable();
    created := t.CreateAd(AdvertisementBase("Bike", None, 10.0, "Al"), t0);
    updated := t.UpdateAd(1, UpdateRequest(Unset, Unset, Set(Some(20.0)), Unset));
    removed := t.DeleteAd(1);
    again := t.DeleteAd(1);
    after := t.GetAd(1);
  }
}
