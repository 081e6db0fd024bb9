/** Going through a set, in whatever order: a map's keys come in no particular one. */
module Sets {
  method Pick<T(==)>(from: set<T>) returns (x: T)
    requires from != {}
    ensures x in from
  {
    x :| x in from;
  }
}
