/**
  The user record of the directory and the field-level edits that the add
  form (src/App.jsx) and the edit form (src/components/UserCard.jsx) apply to
  a staged copy of one.

  A stored record is `{ ...profile, id }`: everything the forms can edit is a
  `Profile`, and a `User` pairs a profile with its id.
 */
module Users {

  datatype Address = Address(street: string, city: string)

  datatype Company = Company(name: string)

  /** A user record without its id; also the shape of the add form's draft. */
  datatype Profile = Profile(
    name: string,
    email: string,
    phone: string,
    address: Address,
    company: Company)

  datatype User = User(id: int, profile: Profile)

  /** The top-level text inputs of both forms, named by their `name` attribute. */
  datatype TextField = Name | Email | Phone

  /** The `(field, subField)` paths the nested inputs pass:
      `("address", "street")`, `("address", "city")` and `("company", "name")`. */
  datatype NestedPath = AddressStreet | AddressCity | CompanyName

  /** Reads the top-level text field `f`. */
  function Get(p: Profile, f: TextField): (v: string) {
    match f
    case Name => p.name
    case Email => p.email
    case Phone => p.phone
  }

  /** Reads the nested field at `path`. */
  function GetNested(p: Profile, path: NestedPath): (v: string) {
    match path
    case AddressStreet => p.address.street
    case AddressCity => p.address.city
    case CompanyName => p.company.name
  }

  /** Two profiles are equal exactly when every text field and every nested
      field reads the same, so the field-wise contracts below determine their
      results completely. */
  lemma Extensionality(p: Profile, q: Profile)
    requires forall f :: Get(p, f) == Get(q, f)
    requires forall path :: GetNested(p, path) == GetNested(q, path)
    ensures p == q
  {
    assert Get(p, Name) == Get(q, Name);
    assert Get(p, Email) == Get(q, Email);
    assert Get(p, Phone) == Get(q, Phone);
    assert GetNested(p, AddressStreet) == GetNested(q, AddressStreet);
    assert GetNested(p, AddressCity) == GetNested(q, AddressCity);
    assert GetNested(p, CompanyName) == GetNested(q, CompanyName);
  }

  /** The blank draft: every string empty, both nested objects present. */
  function Blank(): (p: Profile)
    ensures forall f :: Get(p, f) == ""
    ensures forall path :: GetNested(p, path) == ""
  {
    Profile("", "", "", Address("", ""), Company(""))
  }

  /** `{ ...p, [name]: value }`: sets one top-level field and nothing else. */
  function SetField(p: Profile, f: TextField, value: string): (r: Profile)
    ensures Get(r, f) == value
    ensures forall g :: g != f ==> Get(r, g) == Get(p, g)
    ensures forall path :: GetNested(r, path) == GetNested(p, path)
  {
    match f
    case Name => p.(name := value)
    case Email => p.(email := value)
    case Phone => p.(phone := value)
  }

  /** `{ ...p, [field]: { ...p[field], [subField]: value } }`: sets one nested
      field, keeping its siblings and every top-level field. */
  function SetNested(p: Profile, path: NestedPath, value: string): (r: Profile)
    ensures GetNested(r, path) == value
    ensures forall other :: other != path ==> GetNested(r, other) == GetNested(p, other)
    ensures forall f :: Get(r, f) == Get(p, f)
  {
    match path
    case AddressStreet => p.(address := p.address.(street := value))
    case AddressCity => p.(address := p.address.(city := value))
    case CompanyName => p.(company := p.company.(name := value))
  }

  /** A later input to the same field overrides an earlier one. */
  lemma SetFieldLastWins(p: Profile, f: TextField, v: string, w: string)
    ensures SetField(SetField(p, f, v), f, w) == SetField(p, f, w)
  {
    Extensionality(SetField(SetField(p, f, v), f, w), SetField(p, f, w));
  }

  /** Inputs to different top-level fields commute. */
  lemma SetFieldCommutes(p: Profile, f: TextField, g: TextField, v: string, w: string)
    requires f != g
    ensures SetField(SetField(p, f, v), g, w) == SetField(SetField(p, g, w), f, v)
  {
    Extensionality(SetField(SetField(p, f, v), g, w), SetField(SetField(p, g, w), f, v));
  }

  /** Re-entering a field's current value leaves the draft as it was. */
  lemma SetFieldUnchanged(p: Profile, f: TextField)
    ensures SetField(p, f, Get(p, f)) == p
  {
    Extensionality(SetField(p, f, Get(p, f)), p);
  }

  /** A later input to the same nested path overrides an earlier one. */
  lemma SetNestedLastWins(p: Profile, path: NestedPath, v: string, w: string)
    ensures SetNested(SetNested(p, path, v), path, w) == SetNested(p, path, w)
  {
    Extensionality(SetNested(SetNested(p, path, v), path, w), SetNested(p, path, w));
  }

  /** Inputs to different nested paths, even siblings under `address`, commute. */
  lemma SetNestedCommutes(p: Profile, a: NestedPath, b: NestedPath, v: string, w: string)
    requires a != b
    ensures SetNested(SetNested(p, a, v), b, w) == SetNested(SetNested(p, b, w), a, v)
  {
    Extensionality(SetNested(SetNested(p, a, v), b, w), SetNested(SetNested(p, b, w), a, v));
  }

  /** Top-level and nested inputs commute. */
  lemma SetFieldSetNestedCommute(p: Profile, f: TextField, path: NestedPath, v: string, w: string)
    ensures SetNested(SetField(p, f, v), path, w) == SetField(SetNested(p, path, w), f, v)
  {
    Extensionality(SetNested(SetField(p, f, v), path, w), SetField(SetNested(p, path, w), f, v));
  }
}
