/** The user record and the form-field edits applied to the draft
    (`handleChange`, `resetForm`). */
module Users {
  import opened Optional

  /** Identifiers are the millisecond timestamps `Date.now()` hands out, or
      whatever numbers the loaded records carry. */
  type Id = int

  /** One user record. `id` is absent on a draft that has not been committed
      yet: the form's default object carries no id property at all. */
  datatype User = User(
    id: Option<Id>,
    name: string,
    age: string,
    email: string,
    location: string,
    gender: string,
    phone: string,
    occupation: string,
    isActive: bool,
    registeredAt: string)

  /** The form inputs, by their `name` attribute. Only these reach
      `handleChange`; `id`, `is_active` and `registered_at` have no input. */
  datatype Field = Name | Age | Email | Location | Gender | Phone | Occupation

  /** The value the input bound to `f` displays. */
  function Get(u: User, f: Field): string {
    match f
    case Name => u.name
    case Age => u.age
    case Email => u.email
    case Location => u.location
    case Gender => u.gender
    case Phone => u.phone
    case Occupation => u.occupation
  }

  /** `{ ...u, [f]: v }`: the named field now reads `v`, every other field,
      the id, the status flag and the registration date are as before. */
  function Set(u: User, f: Field, v: string): (r: User)
    ensures Get(r, f) == v
    ensures forall g :: g != f ==> Get(r, g) == Get(u, g)
    ensures r.id == u.id && r.isActive == u.isActive && r.registeredAt == u.registeredAt
  {
    match f
    case Name => u.(name := v)
    case Age => u.(age := v)
    case Email => u.(email := v)
    case Location => u.(location := v)
    case Gender => u.(gender := v)
    case Phone => u.(phone := v)
    case Occupation => u.(occupation := v)
  }

  /** Writing back the value a field already shows changes nothing. */
  lemma SetSameValue(u: User, f: Field)
    ensures Set(u, f, Get(u, f)) == u
  {
  }

  /** A second edit of the same field overwrites the first. */
  lemma SetOverwrites(u: User, f: Field, a: string, b: string)
    ensures Set(Set(u, f, a), f, b) == Set(u, f, b)
  {
  }

  /** Edits of two different fields commute. */
  lemma SetCommutes(u: User, f: Field, g: Field, a: string, b: string)
    requires f != g
    ensures Set(Set(u, f, a), g, b) == Set(Set(u, g, b), f, a)
  {
  }

  /** The object `resetForm` installs: no id, every input empty, active, and
      registered on `today` (the caller's `toLocaleDateString()`). */
  function EmptyDraft(today: string): (d: User)
    ensures d.id == None
    ensures forall f :: Get(d, f) == ""
    ensures d.isActive && d.registeredAt == today
  {
    User(None, "", "", "", "", "", "", "", true, today)
  }
}
