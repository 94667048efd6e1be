/** Parsed JSON objects as the import commands see them: a key is missing, present with null, or present with a value. */
module JsonRecords {
  import opened Wrappers

  datatype Field<T> = Absent | Null | Val(value: T) {

    /** Python's `key in item`. */
    predicate Present()
    {
      !Absent?
    }

    /** Python's `item.get(key)`: None for a missing key and for null. */
    function Get(): Option<T>
    {
      if Val? then Some(value) else None
    }

    /** Python's `item.get(key, default)`: the default only for a missing key; null stays None. */
    function GetOr(default: T): Option<T>
    {
      match this
      case Absent => Some(default)
      case Null => None
      case Val(v) => Some(v)
    }
  }
}
