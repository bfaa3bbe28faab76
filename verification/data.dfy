/** The training data the predictors read. Ids are dense natural numbers, so
    the per-user and per-item dictionaries of the Python code become sequences
    indexed by id, each holding that entity's (other id, rating) entries in
    dictionary order. Every key of the dictionaries has at least one entry,
    so the rows of real users and items are never empty; an empty row is an
    id that is not a key. */
module Data {

  /** One dictionary entry: the other side's id and the rating or label. */
  datatype Entry = Entry(key: nat, rating: real)

  /** One row of the flat implicit-feedback arrays (user, item, label). */
  datatype Interaction = Interaction(user: nat, item: nat, value: real)

  datatype Dataset = Dataset(
    globalMean: real,
    nUsers: nat,
    nItems: nat,
    trainUser: seq<seq<Entry>>,    // user id -> its rated items
    trainItem: seq<seq<Entry>>,    // item id -> its raters
    implicit: seq<Interaction>     // train_user/item/label_implicit, row by row
  )

  /** The dictionary's key list. */
  function Keys(es: seq<Entry>): (r: seq<nat>)
    ensures |r| == |es|
    ensures forall j | 0 <= j < |es| :: r[j] == es[j].key
  {
    seq(|es|, j requires 0 <= j < |es| => es[j].key)
  }
}
