/** Vocabulary shared by every part of the model: optional values, record ids, dates. */
module Base {

  datatype Option<+T> = None | Some(value: T)

  /** A MongoDB ObjectId. The store hands ids out in increasing order, as ObjectIds
      (whose leading bytes are a timestamp) are, so id order is the natural order
      in which a query without `sort` returns documents. */
  type Id = nat

  /** A Date, as milliseconds; only the order of dates matters here. */
  type Time = int

  /** An id as it arrives in a route parameter or a token payload: a well-formed
      ObjectId, or a value Mongoose cannot cast to one (a CastError, hence a 500). */
  datatype Ref = Oid(id: Id) | Malformed

  /** A stored document together with its `_id`. */
  type Entry<T> = (Id, T)
}
