/** Optional values, standing for Python's `None`-or-value arguments. */
module Optional {

  /** `None` is Python's `None`; `Some(v)` is a supplied value `v`. */
  datatype Option<+T> = None | Some(value: T)

  /** True when `o` holds `v` or holds nothing: an absent value constrains
      nothing. */
  predicate Admits<T(==)>(o: Option<T>, v: T) {
    o.Some? ==> o.value == v
  }
}
