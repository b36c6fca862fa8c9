/** Tagged integer identifiers: a `StrongId<Tag>` wraps one unsigned integer,
    and ids with different tags are different types. */
module StrongIds {
  import opened Common

  /** The type parameter only distinguishes kinds of id; it holds no data. */
  datatype StrongId<Tag> = StrongId(value: nat)

  /** The default-constructed id: value 0, below or equal to every id of its kind. */
  function Default<Tag>(): (id: StrongId<Tag>)
    ensures id.value == 0
  {
    StrongId(0)
  }

  /** No id of a kind orders before that kind's default id. */
  lemma DefaultIsLeast<Tag>(other: StrongId<Tag>)
    ensures Compare(Default(), other) != Greater
    ensures !Before(other, Default())
  {
  }

  /** `operator<=>`: ids compare as their values do, and only identical ids are equivalent. */
  function Compare<Tag>(a: StrongId<Tag>, b: StrongId<Tag>): (r: Ordering)
    ensures r == Equal <==> a == b
    ensures r == Less <==> a.value < b.value
    ensures r == Greater <==> b.value < a.value
  {
    if a.value < b.value then Less
    else if b.value < a.value then Greater
    else Equal
  }

  /** `a < b` as derived from `operator<=>`. */
  predicate Before<Tag>(a: StrongId<Tag>, b: StrongId<Tag>)
  {
    Compare(a, b) == Less
  }

  /** The explicit constructor and `value()` are inverse: nothing is lost in either direction. */
  lemma ValueRoundTrip<Tag>(v: nat, id: StrongId<Tag>)
    ensures var w: StrongId<Tag> := StrongId(v); w.value == v
    ensures var w: StrongId<Tag> := StrongId(id.value); w == id
  {
  }

  /** `operator<=>` is a strong total order: antisymmetric, transitive, total,
      and "equivalent" means "equal". */
  lemma CompareIsStrongOrder<Tag>(a: StrongId<Tag>, b: StrongId<Tag>, c: StrongId<Tag>)
    ensures Compare(b, a) == Reverse(Compare(a, b))
    ensures Compare(a, b) != Greater && Compare(b, c) != Greater ==> Compare(a, c) != Greater
    ensures Before(a, b) && Before(b, c) ==> Before(a, c)
    ensures Before(a, b) || a == b || Before(b, a)
    ensures Compare(a, b) == Equal <==> a.value == b.value
  {
  }
}
