/** The lookup-with-default helper of auction_site/functions.py. */
module Forms {
  import opened Options

  /** `value_form(form, key, default_value)` on a dictionary: the entry
      stored under `key`, or `default_value` when there is none. A missing key
      never escapes as an error and, being a function of a map value, it
      cannot change the form. */
  function ValueForm<K, V>(form: map<K, V>, key: K, default: V): (r: V)
    ensures key in form ==> r == form[key]
    ensures key !in form ==> r == default
  {
    if key in form then form[key] else default
  }

  /** `value_form(form, key)` called without a default: an absent key gives
      `None`, a present one its value. */
  function ValueFormOrNone<K, V>(form: map<K, V>, key: K): (r: Option<V>)
    ensures r.Some? <==> key in form
    ensures r.Some? ==> r.value == form[key]
  {
    ValueForm(map k | k in form :: Some(form[k]), key, None)
  }

  /** Supplying the old value as the default makes an empty form a no-op:
      this is what the partial updates rely on. */
  lemma ValueFormEmptyKeepsDefault<K, V>(key: K, default: V)
    ensures ValueForm(map[], key, default) == default
  {
  }
}
