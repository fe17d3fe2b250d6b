/** Records the client receives from the remote API, reduced to the fields the
    cart, the checkout and the menu pages read, and the JavaScript truthiness
    rule those pages apply to optional string fields. */
module Records {
  import opened Wrappers

  /** A menu item as fetched from the API. `id` is its `_id`; `category` is
      `categoryId?._id` (absent when the item has no populated category);
      `price` is in the smallest currency unit. */
  datatype MenuItem = MenuItem(id: string, name: string, price: int, category: Option<string>, available: bool)

  /** A dining table as fetched by slug. The backend may send its key as `id`,
      as `_id` (`dbId` here), or both. */
  datatype Table = Table(id: Option<string>, dbId: Option<string>, number: Option<string>)

  /** JavaScript truthiness of a string-or-null value: `null`, `undefined`
      and `''` are falsy. */
  predicate Truthy(v: Option<string>)
  {
    v.Some? && v.value != ""
  }

  /** `v || null`: keeps a truthy value and turns every falsy one into `null`. */
  function OrNull(v: Option<string>): (r: Option<string>)
    ensures r.None? || Truthy(r)
    ensures Truthy(v) <==> Truthy(r)
    ensures r.Some? ==> r == v
  {
    if Truthy(v) then v else None
  }
}
