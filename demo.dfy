/** The demonstration run of the `User` class, with each printed value checked. */
module Demo {
  import opened Wrappers
  import opened NameCodec
  import opened Classes

  /** The full names the run prints, and the one it writes, split back into its two names. */
  lemma TraceTexts()
    ensures Join("python", "comentado") == "python.comentado"
    ensures Join("javascript", "comentado") == "javascript.comentado"
    ensures Join("java", "comentado") == "java.comentado"
    ensures Split("java.comentado") == ["java", "comentado"]
  {
    SplitJoin("java", "comentado");
  }

  /**
   * Creates a user, reads its full name, reassigns the first name, writes a
   * new full name and deletes it; ends with both fields `None`.
   */
  method ReferenceTrace() returns (user: User)
    ensures user.first == None && user.last == None
    ensures user.FullName() == Failure(AbsentName)
  {
    TraceTexts();
    user := new User("python", "comentado");
    assert user.FullName() == Success("python.comentado");

    user.AssignFirstName(Some("javascript"));
    assert user.FullName() == Success("javascript.comentado");

    var r := user.SetFullName("java.comentado");
    assert r.Pass?;
    assert user.first == Some("java") && user.last == Some("comentado");
    assert user.FullName() == Success("java.comentado");

    user.DeleteFullName();
  }
}
