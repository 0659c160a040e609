/** The optional values of the header: std::optional<float> for the metric
    overrides and the nullable Typeface::Ptr handle. */
module Optional {

  datatype Option<+T> = None | Some(value: T) {

    /** std::optional::value_or: the held value, or the fallback when empty. */
    function ValueOr(fallback: T): (r: T)
      ensures Some? ==> r == value
      ensures None? ==> r == fallback
    {
      match this
      case Some(v) => v
      case None => fallback
    }
  }
}
