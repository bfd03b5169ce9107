/** The request and token schemas: the field constraints and defaults a request
    body must meet before a handler runs. A raw body gives each field or leaves
    it out (`None`); parsing either accepts it as a typed record or rejects it
    with one violation per offending field, in declaration order. */
module Schemas {
  import opened Common

  /** One rejected field and the kind of constraint it broke. */
  datatype Violation = Violation(field: string, kind: string)

  datatype Parsed<T> = Accepted(value: T) | Rejected(violations: seq<Violation>)

  /** A field with a default, as sent: left out, or given a value. Handlers that
      dump with `exclude_unset` only see the fields that were given. */
  datatype Field<T> = Unset | Set(value: T)

  const UsernameMin: nat := 3
  const UsernameMax: nat := 50
  const PasswordMin: nat := 6
  const NameMin: nat := 1
  const NameMax: nat := 100
  const DescriptionMax: nat := 500
  const DefaultRole: string := "user"

  /** The violation, if any, of a required string field with a length range
      (`max` absent: no upper bound). */
  function StringViolations(field: string, s: Option<string>, min: nat, max: Option<nat>): (v: seq<Violation>)
    ensures |v| <= 1
    ensures v == [] <==> s.Some? && min <= |s.value| && (max.None? || |s.value| <= max.value)
    ensures v != [] ==> v[0].field == field
  {
    if s.None? then [Violation(field, "missing")]
    else if |s.value| < min then [Violation(field, "string_too_short")]
    else if max.Some? && |s.value| > max.value then [Violation(field, "string_too_long")]
    else []
  }

  /** The violation, if any, of a required integer field that must be `>= 0`. */
  function NonNegativeViolations(field: string, n: Option<int>): (v: seq<Violation>)
    ensures |v| <= 1
    ensures v == [] <==> n.Some? && n.value >= 0
  {
    if n.None? then [Violation(field, "missing")]
    else if n.value < 0 then [Violation(field, "greater_than_equal")]
    else []
  }

  /** Username of 3 to 50 characters and password of at least 6. */
  predicate ValidCredentials(username: string, password: string)
  {
    UsernameMin <= |username| <= UsernameMax && |password| >= PasswordMin
  }

  function CredentialViolations(username: Option<string>, password: Option<string>): (v: seq<Violation>)
    ensures v == [] <==> username.Some? && password.Some? && ValidCredentials(username.value, password.value)
  {
    StringViolations("username", username, UsernameMin, Some(UsernameMax)) +
    StringViolations("password", password, PasswordMin, None)
  }

  // ---------------------------------------------------------------------------
  // Users
  // ---------------------------------------------------------------------------

  datatype UserBase = UserBase(email: string, username: string, password: string, role: string)

  datatype RawUserBase = RawUserBase(
    email: Option<string>, username: Option<string>, password: Option<string>, role: Option<string>)

  /** `UserBase`: e-mail, username and password are required, the credentials
      bounded; a role left out becomes "user". */
  function ParseUserBase(raw: RawUserBase): (r: Parsed<UserBase>)
    ensures r.Accepted? <==>
      raw.email.Some? && raw.username.Some? && raw.password.Some? &&
      ValidCredentials(raw.username.value, raw.password.value)
    ensures r.Accepted? ==>
      r.value.email == raw.email.value && r.value.username == raw.username.value &&
      r.value.password == raw.password.value && ValidCredentials(r.value.username, r.value.password)
    ensures r.Accepted? && raw.role.None? ==> r.value.role == DefaultRole
    ensures r.Accepted? && raw.role.Some? ==> r.value.role == raw.role.value
    ensures r.Rejected? ==> |r.violations| >= 1
  {
    var v := (if raw.email.None? then [Violation("email", "missing")] else []) +
      CredentialViolations(raw.username, raw.password);
    if v != [] then Rejected(v)
    else Accepted(UserBase(raw.email.value, raw.username.value, raw.password.value,
      if raw.role.Some? then raw.role.value else DefaultRole))
  }

  /** Sending every field of a valid user gives that user back. */
  lemma UserBaseRoundTrip(u: UserBase)
    requires ValidCredentials(u.username, u.password)
    ensures ParseUserBase(RawUserBase(Some(u.email), Some(u.username), Some(u.password), Some(u.role))) == Accepted(u)
  {
  }

  datatype UserRequest = UserRequest(email: string, username: string, password: string)

  datatype RawUserRequest = RawUserRequest(email: Option<string>, username: Option<string>, password: Option<string>)

  /** `UserRequest` (registration): the same bounds, and no role field. */
  function ParseUserRequest(raw: RawUserRequest): (r: Parsed<UserRequest>)
    ensures r.Accepted? <==>
      raw.email.Some? && raw.username.Some? && raw.password.Some? &&
      ValidCredentials(raw.username.value, raw.password.value)
    ensures r.Accepted? ==>
      r.value == UserRequest(raw.email.value, raw.username.value, raw.password.value) &&
      ValidCredentials(r.value.username, r.value.password)
    ensures r.Rejected? ==> |r.violations| >= 1
  {
    var v := (if raw.email.None? then [Violation("email", "missing")] else []) +
      CredentialViolations(raw.username, raw.password);
    if v != [] then Rejected(v)
    else Accepted(UserRequest(raw.email.value, raw.username.value, raw.password.value))
  }

  datatype UserLogin = UserLogin(username: string, password: string)

  datatype RawUserLogin = RawUserLogin(username: Option<string>, password: Option<string>)

  /** `UserLogin`: the same username and password bounds as registration. */
  function ParseUserLogin(raw: RawUserLogin): (r: Parsed<UserLogin>)
    ensures r.Accepted? <==>
      raw.username.Some? && raw.password.Some? && ValidCredentials(raw.username.value, raw.password.value)
    ensures r.Accepted? ==> r.value == UserLogin(raw.username.value, raw.password.value)
    ensures r.Rejected? ==> |r.violations| >= 1
  {
    var v := CredentialViolations(raw.username, raw.password);
    if v != [] then Rejected(v) else Accepted(UserLogin(raw.username.value, raw.password.value))
  }

  /** Whatever a registration accepts, a login with the same name and password
      accepts too, and the other way round. */
  lemma LoginAcceptsRegisteredCredentials(email: string, username: string, password: string)
    ensures ParseUserRequest(RawUserRequest(Some(email), Some(username), Some(password))).Accepted? <==>
      ParseUserLogin(RawUserLogin(Some(username), Some(password))).Accepted?
  {
  }

  // ---------------------------------------------------------------------------
  // Products and stock amounts
  // ---------------------------------------------------------------------------

  /** `ProductRequest` (the `ProductBase` fields): `description` remembers
      whether it was sent at all. */
  datatype ProductRequest = ProductRequest(name: string, description: Field<Option<string>>, quantity: int)

  datatype RawProduct = RawProduct(name: Option<string>, description: Field<Option<string>>, quantity: Option<int>)

  /** An absent, null or at most 500-character description. */
  predicate DescriptionOk(d: Field<Option<string>>)
  {
    d.Unset? || d.value.None? || |d.value.value| <= DescriptionMax
  }

  /** Name of 1 to 100 characters, description within bounds, quantity at least 0. */
  predicate ValidProduct(p: ProductRequest)
  {
    NameMin <= |p.name| <= NameMax && DescriptionOk(p.description) && p.quantity >= 0
  }

  function ParseProduct(raw: RawProduct): (r: Parsed<ProductRequest>)
    ensures r.Accepted? <==>
      raw.name.Some? && raw.quantity.Some? &&
      ValidProduct(ProductRequest(raw.name.value, raw.description, raw.quantity.value))
    ensures r.Accepted? ==>
      ValidProduct(r.value) && r.value.name == raw.name.value &&
      r.value.description == raw.description && r.value.quantity == raw.quantity.value
    ensures r.Rejected? ==> |r.violations| >= 1
  {
    var v := StringViolations("name", raw.name, NameMin, Some(NameMax)) +
      (if DescriptionOk(raw.description) then [] else [Violation("description", "string_too_long")]) +
      NonNegativeViolations("quantity", raw.quantity);
    if v != [] then Rejected(v)
    else Accepted(ProductRequest(raw.name.value, raw.description, raw.quantity.value))
  }

  /** Sending the fields of a valid product gives it back. */
  lemma ProductRoundTrip(p: ProductRequest)
    requires ValidProduct(p)
    ensures ParseProduct(RawProduct(Some(p.name), p.description, Some(p.quantity))) == Accepted(p)
  {
  }

  /** `IncreaseDecreaseStock`. */
  datatype StockChange = StockChange(amount: int)

  function ParseStockChange(amount: Option<int>): (r: Parsed<StockChange>)
    ensures r.Accepted? <==> amount.Some? && amount.value >= 0
    ensures r.Accepted? ==> r.value.amount == amount.value && r.value.amount >= 0
    ensures r.Rejected? ==> |r.violations| == 1
  {
    var v := NonNegativeViolations("amount", amount);
    if v != [] then Rejected(v) else Accepted(StockChange(amount.value))
  }

  // ---------------------------------------------------------------------------
  // Token data
  // ---------------------------------------------------------------------------

  /** What a verified token says about its bearer; both parts are optional. */
  datatype TokenData = TokenData(userId: Option<int>, role: Option<string>)

  /** Building `TokenData` from the fields a token carries: a field left out is
      `None`, and a given one is kept. */
  function TokenDataOf(userId: Field<Option<int>>, role: Field<Option<string>>): (t: TokenData)
    ensures userId.Unset? ==> t.userId.None?
    ensures role.Unset? ==> t.role.None?
    ensures userId.Set? ==> t.userId == userId.value
    ensures role.Set? ==> t.role == role.value
  {
    TokenData(if userId.Set? then userId.value else None, if role.Set? then role.value else None)
  }
}
