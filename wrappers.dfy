/** Option and Result, the two failure-carrying shapes used throughout the model. */
module Wrappers {

  /** A value that may be absent: a nil pointer, a failed parse, a failed fetch. */
  datatype Option<+T> = None | Some(value: T)

  /** A Go `(value, error)` pair: exactly one of the two is meaningful. */
  datatype Result<+T, +E> = Ok(value: T) | Err(error: E)
}

/** The errors a repository method hands back to its caller. */
module Sql {

  datatype StoreError =
    | NoRows            // sql.ErrNoRows: a QueryRow(...).Scan found no matching row
    | NoteNotFound      // errors.New("NoteNotFound"): an UPDATE of notes affected no row
    | UserNotFound      // errors.New("UserNotFound"): an UPDATE of users affected no row
    | ConnectionFailed  // any error the driver reports for the statement itself
}

/** Facts about finite sets that the repositories' scans rely on. */
module Sets {

  /** A sub-multiset as large as the whole is the whole. */
  lemma FullSubMultiset<T>(part: multiset<T>, whole: multiset<T>)
    requires part <= whole
    requires |whole| <= |part|
    ensures part == whole
  {
    assert whole == part + (whole - part);
  }

  /** A set seen as a multiset keeps its size. */
  lemma {:induction false} MultisetOfSetSize<T>(s: set<T>)
    ensures |multiset(s)| == |s|
  {
    if s != {} {
      var x :| x in s;
      MultisetOfSetSize(s - {x});
      assert multiset(s) == multiset(s - {x}) + multiset{x};
    }
  }

  /** A non-empty set of ids has a member to pick next. */
  lemma HasElement(s: set<int>)
    requires s != {}
    ensures exists k :: k in s
  {
    if forall k :: k !in s {
      assert false;
    }
  }
}
