/**
 * The record types of the typed repository: `Role`, `Address` and `User`, the creation
 * input `Omit<User, "id">`, the update input `Partial<Omit<User, "id">>`, property reads
 * `user[key]` and the object spread `{ ...user, ...updateData }`.
 */
module Users {
  import opened Wrappers

  /** The string literal union "user" | "admin" | "guest". */
  datatype Role = UserRole | AdminRole | GuestRole

  datatype Address = Address(street: string, city: string, zipCode: string)

  /** A stored record; `None` in an optional field is a property that reads as `undefined`. */
  datatype User = User(
    id: string,
    name: string,
    email: string,
    isActive: bool,
    role: Role,
    phoneNumber: Option<string>,
    address: Option<Address>)

  /** `Omit<User, "id">`: what a caller hands to `create`. */
  datatype NewUser = NewUser(
    name: string,
    email: string,
    isActive: bool,
    role: Role,
    phoneNumber: Option<string>,
    address: Option<Address>)

  /**
   * `Partial<Omit<User, "id">>`: `None` is a key the update data does not have. The optional
   * fields may also be present with the value `undefined` (`Some(None)`), which the spread copies.
   */
  datatype UserPatch = UserPatch(
    name: Option<string>,
    email: Option<string>,
    isActive: Option<bool>,
    role: Option<Role>,
    phoneNumber: Option<Option<string>>,
    address: Option<Option<Address>>)

  /** `keyof User`: the property names a projection may ask for. */
  datatype Field = IdKey | NameKey | EmailKey | IsActiveKey | RoleKey | PhoneNumberKey | AddressKey

  /** The value a property read yields. */
  datatype Value =
    | Undefined
    | Text(text: string)
    | Flag(flag: bool)
    | RoleValue(role: Role)
    | AddressValue(address: Address)

  function OptionalText(o: Option<string>): Value {
    match o
    case None => Undefined
    case Some(s) => Text(s)
  }

  function OptionalAddress(o: Option<Address>): Value {
    match o
    case None => Undefined
    case Some(a) => AddressValue(a)
  }

  /** `user[key]`: reading a property of a stored record. */
  function Get(u: User, key: Field): (r: Value)
    ensures r == Undefined <==> (key == PhoneNumberKey && u.phoneNumber.None?) || (key == AddressKey && u.address.None?)
  {
    match key
    case IdKey => Text(u.id)
    case NameKey => Text(u.name)
    case EmailKey => Text(u.email)
    case IsActiveKey => Flag(u.isActive)
    case RoleKey => RoleValue(u.role)
    case PhoneNumberKey => OptionalText(u.phoneNumber)
    case AddressKey => OptionalAddress(u.address)
  }

  /** Property reads tell records apart: two records that read alike on every key are equal. */
  lemma ReadsDetermineUser(u: User, v: User)
    requires forall key :: Get(u, key) == Get(v, key)
    ensures u == v
  {
    assert Get(u, IdKey) == Get(v, IdKey);
    assert Get(u, NameKey) == Get(v, NameKey);
    assert Get(u, EmailKey) == Get(v, EmailKey);
    assert Get(u, IsActiveKey) == Get(v, IsActiveKey);
    assert Get(u, RoleKey) == Get(v, RoleKey);
    assert Get(u, PhoneNumberKey) == Get(v, PhoneNumberKey);
    assert Get(u, AddressKey) == Get(v, AddressKey);
  }

  /** `{ ...userToAdd, id }`: the creation input with the new id added. */
  function WithId(data: NewUser, id: string): (u: User)
    ensures u.id == id && Strip(u) == data
  {
    User(id, data.name, data.email, data.isActive, data.role, data.phoneNumber, data.address)
  }

  /** The record without its `id`, i.e. the `Omit<User, "id">` part of it: every other field is kept. */
  function Strip(u: User): (r: NewUser)
    ensures User(u.id, r.name, r.email, r.isActive, r.role, r.phoneNumber, r.address) == u
  {
    NewUser(u.name, u.email, u.isActive, u.role, u.phoneNumber, u.address)
  }

  /** The own properties of an update object, as the values a spread copies from it. */
  function PatchEntries(p: UserPatch): (m: map<Field, Value>)
    ensures IdKey !in m
  {
    var m0: map<Field, Value> := map[];
    var m1 := if p.name.Some? then m0[NameKey := Text(p.name.value)] else m0;
    var m2 := if p.email.Some? then m1[EmailKey := Text(p.email.value)] else m1;
    var m3 := if p.isActive.Some? then m2[IsActiveKey := Flag(p.isActive.value)] else m2;
    var m4 := if p.role.Some? then m3[RoleKey := RoleValue(p.role.value)] else m3;
    var m5 := if p.phoneNumber.Some? then m4[PhoneNumberKey := OptionalText(p.phoneNumber.value)] else m4;
    if p.address.Some? then m5[AddressKey := OptionalAddress(p.address.value)] else m5
  }

  /** An update object that has none of the keys: `{}`. */
  const NO_CHANGES := UserPatch(None, None, None, None, None, None)

  /**
   * `{ ...user, ...updateData }`: every key the update object has overrides the record's
   * value, every other key keeps it, and the id (which the update type cannot carry) is kept.
   */
  function Merge(u: User, p: UserPatch): (r: User)
    ensures r.id == u.id
    ensures forall key :: Get(r, key) == if key in PatchEntries(p) then PatchEntries(p)[key] else Get(u, key)
  {
    User(
      u.id,
      if p.name.Some? then p.name.value else u.name,
      if p.email.Some? then p.email.value else u.email,
      if p.isActive.Some? then p.isActive.value else u.isActive,
      if p.role.Some? then p.role.value else u.role,
      if p.phoneNumber.Some? then p.phoneNumber.value else u.phoneNumber,
      if p.address.Some? then p.address.value else u.address)
  }

  /** Merging the empty update object `{}` leaves the record as it was. */
  lemma MergeNoChanges(u: User)
    ensures Merge(u, NO_CHANGES) == u
  {
  }
}
