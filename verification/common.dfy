/** Shared vocabulary of the marketplace model: nullable values, roles,
    the error taxonomy, and the two store helpers every repository uses
    (filtered views and identity-style id generation). */
module Common {

  /** A Java reference that may be null. */
  datatype Option<+T> = None | Some(value: T)

  /** A nullable Java String. */
  type Str = Option<string>

  /** `v != null && !v.isEmpty()`, the guard the directory puts on optional identity numbers. */
  predicate Present(v: Str) {
    v.Some? && v.value != ""
  }

  /** The four user types of the marketplace. */
  datatype Role = Tutor | Veterinario | Lojista | Administrador

  /** Which kind of record an error is about. */
  datatype Entity = UserEntity | ProductEntity | PetEntity | ServiceEntity

  /** The four identity values the directory keeps unique, in the order it checks them. */
  datatype Field = EmailField | CpfField | CnpjField | CrmvField

  /** Position of a field in the directory's check order. */
  function Rank(f: Field): nat {
    match f
    case EmailField => 0
    case CpfField => 1
    case CnpjField => 2
    case CrmvField => 3
  }

  /** Every failure the core reports, by kind. */
  datatype Error =
    | NotFound(entity: Entity)          // no record with that id / email
    | AlreadyRegistered(field: Field)   // a uniqueness probe found the value taken
    | RoleRequired(role: Role)          // the creator does not have the role the resource needs
    | NotOwner(entity: Entity)          // the acting user does not own the record
    | NegativeStock                     // a stock update below zero
    | SecurityAnswerUnset               // the stored security answer is null
    | WrongSecurityAnswer               // the supplied answer differs from the stored one
    | Denied                            // the controller refused the caller before any service call

  datatype Result<+T> = Ok(value: T) | Err(error: Error)

  /** The entries of `s` whose value satisfies `p`: the shape of every
      repository query that filters a table. */
  function Where<V>(s: map<int, V>, p: V -> bool): (r: map<int, V>)
    ensures forall k :: k in r <==> k in s && p(s[k])
    ensures forall k :: k in r ==> r[k] == s[k]
  {
    map k | k in s && p(s[k]) :: s[k]
  }

  /** A table as an identity-column database keeps it: the rows by id, and
      the counter the id column hands out next. */
  datatype Table<V> = Table(rows: map<int, V>, next: int)

  /** Every id in use was issued by the counter, which starts at 1 and only
      grows (rows are never physically removed). */
  ghost predicate IdsIssued<V>(t: Table<V>) {
    && 1 <= t.next
    && forall k :: k in t.rows ==> 1 <= k < t.next
  }

  type Store<V> = t: Table<V> | IdsIssued(t) witness Table(map[], 1)

  /** `save` of a new entity: the row gets the next id. */
  function Insert<V>(t: Store<V>, v: V): (r: (Store<V>, int))
    ensures r.1 !in t.rows
    ensures r.0.rows == t.rows[r.1 := v]
    ensures forall k :: k in t.rows ==> k < r.1
  {
    var grown: Store<V> := Table(t.rows[t.next := v], t.next + 1);
    (grown, t.next)
  }

  /** `save` of an existing entity: the row keeps its id. */
  function Put<V>(t: Store<V>, k: int, v: V): (r: Store<V>)
    requires k in t.rows
    ensures r.rows == t.rows[k := v]
    ensures r.rows.Keys == t.rows.Keys
  {
    Table(t.rows[k := v], t.next)
  }

  /** The least id in `[from, t.next)` whose row satisfies `p`, scanning upwards. */
  function FirstFrom<V>(t: Store<V>, p: V -> bool, from: int): (r: Option<int>)
    requires 1 <= from
    ensures r.Some? ==> from <= r.value && r.value in t.rows && p(t.rows[r.value])
    ensures r.Some? ==> forall k :: from <= k < r.value && k in t.rows ==> !p(t.rows[k])
    ensures r.None? ==> forall k :: k in t.rows && from <= k ==> !p(t.rows[k])
    decreases t.next - from
  {
    if from >= t.next then None
    else if from in t.rows && p(t.rows[from]) then Some(from)
    else FirstFrom(t, p, from + 1)
  }

  /** The least id whose row satisfies `p`, if any: how a single-result
      query resolves in this model. */
  function First<V>(t: Store<V>, p: V -> bool): (r: Option<int>)
    ensures r.Some? ==> r.value in t.rows && p(t.rows[r.value])
    ensures r.Some? ==> forall k :: k in t.rows && k < r.value ==> !p(t.rows[k])
    ensures r.None? <==> forall k :: k in t.rows ==> !p(t.rows[k])
  {
    FirstFrom(t, p, 1)
  }
}
