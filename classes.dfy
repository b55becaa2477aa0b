/**
 * The `User` class: two stored name fields and the derived full name, with
 * its read, write and delete accessors written out as members.
 */
module Classes {
  import opened Wrappers
  import opened NameCodec

  /** The two ways the full-name accessors fail. */
  datatype Error =
    /** Reading the full name while a field is `None` (Python raises TypeError). */
    | AbsentName
    /** Unpacking `got` pieces into the two fields (Python raises ValueError). */
    | UnpackMismatch(got: nat)

  class User {
    var first: Option<string>
    var last: Option<string>

    /** Stores both names as given, without checking or normalising them. */
    constructor (first: string, last: string)
      ensures this.first == Some(first) && this.last == Some(last)
    {
      this.first := Some(first);
      this.last := Some(last);
    }

    /** Both names are present and neither holds the separator. */
    predicate DotFreeNames()
      reads this
    {
      first.Some? && last.Some? && Dot !in first.value && Dot !in last.value
    }

    /**
     * Reads the full name: the first name, a dot and the last name, or an
     * error when either field is `None`.
     */
    function FullName(): (r: Result<string, Error>)
      reads this
      ensures r.Success? <==> first.Some? && last.Some?
      ensures r.Failure? ==> r.error == AbsentName
      ensures r.Success? ==> r.value == Join(first.value, last.value)
    {
      if first.Some? && last.Some? then Success(Join(first.value, last.value))
      else Failure(AbsentName)
    }

    /**
     * Writes the full name: splits `v` at every dot and unpacks the pieces
     * into the two fields. Anything but exactly two pieces fails before
     * either field is assigned.
     */
    method SetFullName(v: string) returns (r: Outcome<Error>)
      modifies this
      ensures r.Pass? <==> |Split(v)| == 2
      ensures r.Pass? <==> DotCount(v) == 1
      ensures r.Pass? ==> first == Some(Split(v)[0]) && last == Some(Split(v)[1])
      ensures r.Pass? ==> DotFreeNames() && FullName() == Success(v)
      ensures r.Fail? ==> r.error == UnpackMismatch(DotCount(v) + 1)
      ensures r.Fail? ==> first == old(first) && last == old(last)
      ensures old(DotFreeNames()) && old(FullName()) == Success(v) ==>
                first == old(first) && last == old(last)
    {
      SplitInTwo(v);
      SplitLength(v);
      if old(DotFreeNames()) {
        SplitJoin(first.value, last.value);
      }
      var parts := Split(v);
      if |parts| == 2 {
        first, last := Some(parts[0]), Some(parts[1]);
        r := Pass;
      } else {
        r := Fail(UnpackMismatch(|parts|));
      }
    }

    /** Deletes the full name: both fields become `None`, whatever they held. */
    method DeleteFullName()
      modifies this
      ensures first == None && last == None
      ensures FullName() == Failure(AbsentName)
    {
      first := None;
      last := None;
    }

    /** Assigns the `first_name` attribute directly; the last name is untouched. */
    method AssignFirstName(f: Option<string>)
      modifies this
      ensures first == f && last == old(last)
      ensures f.Some? && last.Some? ==> FullName() == Success(Join(f.value, last.value))
    {
      first := f;
    }

    /** Assigns the `last_name` attribute directly; the first name is untouched. */
    method AssignLastName(l: Option<string>)
      modifies this
      ensures last == l && first == old(first)
      ensures first.Some? && l.Some? ==> FullName() == Success(Join(first.value, l.value))
    {
      last := l;
    }
  }

  /**
   * Reading the full name and splitting it gives back the two fields when
   * neither holds a dot; when one does, the read value splits into more than
   * two pieces and cannot be written back.
   */
  lemma ReadThenSplit(u: User)
    requires u.first.Some? && u.last.Some?
    ensures u.FullName().Success?
    ensures u.DotFreeNames() ==> Split(u.FullName().value) == [u.first.value, u.last.value]
    ensures !u.DotFreeNames() ==> |Split(u.FullName().value)| > 2
  {
    if u.DotFreeNames() {
      SplitJoin(u.first.value, u.last.value);
    } else {
      JoinWithDottedName(u.first.value, u.last.value);
    }
  }

  /** Deleting the full name a second time leaves the same state as deleting it once. */
  method DeleteTwice(u: User)
    modifies u
    ensures u.first == None && u.last == None
  {
    u.DeleteFullName();
    u.DeleteFullName();
  }
}
