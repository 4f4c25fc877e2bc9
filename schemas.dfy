/** The request and response shapes of the durable service and their field
    constraints (app/schemas.py). */
module Schemas {
  import opened Wrappers

  /** A creation time; the clock is outside the model, so it is passed in. */
  type Timestamp = int

  const TitleMaxLength := 100
  const DescriptionMaxLength := 1000
  const AuthorMaxLength := 50

  /** `title: str = Field(..., min_length=1, max_length=100)` */
  predicate ValidTitle(s: string) { 1 <= |s| <= TitleMaxLength }

  /** `description: Optional[str] = Field(None, max_length=1000)` */
  predicate ValidDescription(d: Option<string>) { d.Some? ==> |d.value| <= DescriptionMaxLength }

  /** `price: float = Field(..., gt=0)` */
  predicate ValidPrice(p: real) { p > 0.0 }

  /** `author: str = Field(..., min_length=1, max_length=50)` */
  predicate ValidAuthor(s: string) { 1 <= |s| <= AuthorMaxLength }

  /** The four client-supplied fields of an advertisement. */
  datatype Field = Title | Description | Price | Author

  /** An `AdvertisementBase` payload before validation. */
  datatype AdvertisementBase = AdvertisementBase(
    title: string,
    description: Option<string>,
    price: real,
    author: string)

  /** Whether field `f` of `b` meets its constraint. */
  predicate FieldValid(b: AdvertisementBase, f: Field) {
    match f
    case Title => ValidTitle(b.title)
    case Description => ValidDescription(b.description)
    case Price => ValidPrice(b.price)
    case Author => ValidAuthor(b.author)
  }

  predicate ValidBase(b: AdvertisementBase) {
    ValidTitle(b.title) && ValidDescription(b.description) && ValidPrice(b.price) && ValidAuthor(b.author)
  }

  /** `AdvertisementCreate` adds nothing to `AdvertisementBase`: a creation
      payload is exactly a base payload that meets the base constraints. */
  type AdvertisementCreate = b: AdvertisementBase | ValidBase(b)
    witness AdvertisementBase("-", None, 1.0, "-")

  /** The fields a payload violates, in declaration order: the field list of a
      validation error. */
  function Violations(b: AdvertisementBase): (r: seq<Field>)
    ensures forall f :: f in r <==> !FieldValid(b, f)
    ensures r == [] <==> ValidBase(b)
    ensures forall i, j :: 0 <= i < j < |r| ==> r[i] != r[j]
  {
    (if ValidTitle(b.title) then [] else [Title])
    + (if ValidDescription(b.description) then [] else [Description])
    + (if ValidPrice(b.price) then [] else [Price])
    + (if ValidAuthor(b.author) then [] else [Author])
  }

  datatype Validated<+T> = Valid(value: T) | Invalid(fields: seq<Field>)

  /** Parsing a creation payload: accepted unchanged when every field meets
      its constraint, otherwise rejected with every violated field. */
  function ValidateCreate(b: AdvertisementBase): (r: Validated<AdvertisementCreate>)
    ensures r.Valid? <==> ValidBase(b)
    ensures r.Valid? ==> r.value == b
    ensures r.Invalid? ==> r.fields != [] && forall f :: f in r.fields <==> !FieldValid(b, f)
  {
    if ValidBase(b) then Valid(b) else Invalid(Violations(b))
  }

  /** An `AdvertisementUpdate` payload as a field mask. Each entry is `Unset`
      when the client did not send it, `Set(None)` for an explicit JSON null
      and `Set(Some(v))` for a value. */
  datatype UpdateRequest = UpdateRequest(
    title: Patch<Option<string>>,
    description: Patch<Option<string>>,
    price: Patch<Option<real>>,
    author: Patch<Option<string>>)

  /** A supplied value must meet the same bound as on create; an absent entry
      and an explicit null are not checked. */
  predicate UpdateFieldValid(u: UpdateRequest, f: Field) {
    match f
    case Title => u.title.Set? && u.title.value.Some? ==> ValidTitle(u.title.value.value)
    case Description => u.description.Set? ==> ValidDescription(u.description.value)
    case Price => u.price.Set? && u.price.value.Some? ==> ValidPrice(u.price.value.value)
    case Author => u.author.Set? && u.author.value.Some? ==> ValidAuthor(u.author.value.value)
  }

  predicate ValidUpdate(u: UpdateRequest) {
    UpdateFieldValid(u, Title) && UpdateFieldValid(u, Description)
    && UpdateFieldValid(u, Price) && UpdateFieldValid(u, Author)
  }

  type AdvertisementUpdate = u: UpdateRequest | ValidUpdate(u)
    witness UpdateRequest(Unset, Unset, Unset, Unset)

  function UpdateViolations(u: UpdateRequest): (r: seq<Field>)
    ensures forall f :: f in r <==> !UpdateFieldValid(u, f)
    ensures r == [] <==> ValidUpdate(u)
  {
    (if UpdateFieldValid(u, Title) then [] else [Title])
    + (if UpdateFieldValid(u, Description) then [] else [Description])
    + (if UpdateFieldValid(u, Price) then [] else [Price])
    + (if UpdateFieldValid(u, Author) then [] else [Author])
  }

  function ValidateUpdate(u: UpdateRequest): (r: Validated<AdvertisementUpdate>)
    ensures r.Valid? <==> ValidUpdate(u)
    ensures r.Valid? ==> r.value == u
    ensures r.Invalid? ==> r.fields != [] && forall f :: f in r.fields <==> !UpdateFieldValid(u, f)
  {
    if ValidUpdate(u) then Valid(u) else Invalid(UpdateViolations(u))
  }

  /** The update that sends every field of `b` with its value. */
  function SetEverything(b: AdvertisementBase): UpdateRequest {
    UpdateRequest(Set(Some(b.title)), Set(b.description), Set(Some(b.price)), Set(Some(b.author)))
  }

  /** Each update field carries the same bound as on create: a field supplied
      with a value passes the update check exactly when it would pass the
      create check, and the empty update always passes. */
  lemma UpdateBoundsMatchCreate(b: AdvertisementBase)
    ensures forall f :: UpdateFieldValid(SetEverything(b), f) <==> FieldValid(b, f)
    ensures ValidUpdate(SetEverything(b)) <==> ValidBase(b)
    ensures ValidUpdate(UpdateRequest(Unset, Unset, Unset, Unset))
  {
  }

  /** `AdvertisementOut`: a base record plus `id` and `created_at`. It is also
      the shape of a stored row (app/models.py). */
  datatype AdvertisementOut = AdvertisementOut(
    id: int,
    title: string,
    description: Option<string>,
    price: real,
    author: string,
    createdAt: Timestamp)

  function BaseOf(a: AdvertisementOut): AdvertisementBase {
    AdvertisementBase(a.title, a.description, a.price, a.author)
  }

  function WithIdentity(b: AdvertisementBase, id: int, createdAt: Timestamp): AdvertisementOut {
    AdvertisementOut(id, b.title, b.description, b.price, b.author, createdAt)
  }

  /** An output record is exactly a base record plus an id and a creation
      time: splitting one and putting it back together loses nothing. */
  lemma OutIsBasePlusIdentity(a: AdvertisementOut, b: AdvertisementBase, id: int, t: Timestamp)
    ensures WithIdentity(BaseOf(a), a.id, a.createdAt) == a
    ensures BaseOf(WithIdentity(b, id, t)) == b
    ensures WithIdentity(b, id, t).id == id && WithIdentity(b, id, t).createdAt == t
  {
  }
}
