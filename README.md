# User full name: a verified model

This project models the `User` class of `classes.py`. A user stores two text
fields, `first_name` and `last_name`. On top of them the class exposes a derived
`full_name` attribute with three accessors:

- read: the first name, a literal `.`, and the last name;
- write: the new value is split at every `.` and the pieces are unpacked into the two fields;
- delete: both fields become `None`.

Files:

- `wrappers.dfy` (module `Wrappers`): `Option` for a field that may be `None`,
  and `Result` / `Outcome` for accessors that may raise.
- `name_codec.dfy` (module `NameCodec`): the text format on its own, as pure functions.
  `Join` is the `+ "." +` of the getter. `Split` is Python's `str.split(".")`,
  which always yields one piece more than there are dots (`"".split(".")` is `[""]`).
  `JoinAll` is `".".join(...)`, an independent reference that pins `Split` down.
- `classes.dfy` (module `Classes`): the class `User` with mutable fields
  `first`, `last: Option<string>`. The getter is the function `FullName`.
  The setter, the deleter and the direct attribute assignments are methods that `modify this`.
- `demo.dfy` (module `Demo`): the script at the bottom of `classes.py`, with
  each printed value stated as an assertion the verifier checks.

Errors are modelled as values, not as preconditions:

- Reading while a field is `None` raises `TypeError` in Python. Here it gives `Failure(AbsentName)`.
- Writing a value that does not split into exactly two pieces raises `ValueError` in Python.
  Here it gives `Fail(UnpackMismatch(n))`, where `n` is the number of pieces.
  Python's tuple unpack fails before any assignment, so both fields are left as they were.

## Model

| member | source | states |
|---|---|---|
| `NameCodec.Join` | classes.py:11 | the full name is the first name, then one dot, then the last name: length, prefix, separator position and suffix |
| `NameCodec.Split` | classes.py:15 | `str.split(".")` always yields at least one piece |
| `NameCodec.SplitLength` | classes.py:15 | the number of pieces is the number of dots plus one |
| `NameCodec.SplitPartsDotFree` | classes.py:15 | no piece contains a dot |
| `NameCodec.JoinAllSplit` | classes.py:15 | joining the pieces with dots gives back the split text |
| `NameCodec.SplitWithoutDot` | classes.py:15 | a text without a dot is a single piece |
| `NameCodec.SplitAtFirstDot` | classes.py:15 | the text before the first dot is the first piece; the rest splits on its own |
| `NameCodec.SplitJoinAll` | classes.py:15 | splitting a dot-join of dot-free pieces gives back those pieces |
| `NameCodec.SplitUnique` | classes.py:15 | `Split` is the only cut into dot-free pieces that joins back to the text |
| `NameCodec.SplitJoin` | classes.py:11-15 | the full name of two dot-free names splits back into exactly those two names |
| `NameCodec.SplitInTwo` | classes.py:15 | a value splits into two pieces if and only if it has exactly one dot; the two pieces are dot-free and join back to the value |
| `NameCodec.JoinWithDottedName` | classes.py:11-15 | if either name holds a dot, its full name splits into more than two pieces |
| `Classes.User.constructor` | classes.py:4-6 | both names are stored as given, with no check or normalisation |
| `Classes.User.FullName` | classes.py:10-11 | the read succeeds exactly when both fields are present; the error is `AbsentName`; the value is `Join` of the two fields |
| `Classes.User.SetFullName` | classes.py:13-15 | succeeds if and only if the value has exactly one dot; then the fields are the two pieces, both dot-free, and reading gives the value back; otherwise the error counts the pieces and neither field changes; writing back the current full name of dot-free names changes nothing |
| `Classes.User.DeleteFullName` | classes.py:17-20 | both fields become `None` whatever they held, so a later read fails with `AbsentName` |
| `Classes.User.AssignFirstName` | classes.py:28 | only `first_name` changes; the next read joins the new first name with the unchanged last name |
| `Classes.User.AssignLastName` | classes.py:6 | assigns the plain attribute set up at classes.py:6, the counterpart for the other field of the assignment at classes.py:28: only `last_name` changes; the next read joins the unchanged first name with the new last name |
| `Classes.ReadThenSplit` | classes.py:10-15 | with both fields present, the read succeeds; it splits back into the two fields when they are dot-free, and into more than two pieces otherwise |
| `Classes.DeleteTwice` | classes.py:17-20 | deleting twice leaves the same state as deleting once: both fields `None` |
| `Demo.TraceTexts` | classes.py:25-37 | the three full names of the demonstration, and the split of `"java.comentado"` into `"java"` and `"comentado"` |
| `Demo.ReferenceTrace` | classes.py:23-41 | the demonstration gives `python.comentado`, then `javascript.comentado`, then `java` / `comentado` / `java.comentado`, and both fields end as `None` |

## Left out

- The `print` calls of the demonstration script are console output. `Demo.ReferenceTrace` asserts the printed values instead.
- Python's `@property` descriptor machinery and attribute syntax are not modelled. The accessors are explicit members.
- The encoding comment on line 1 and the commented-out stored field on line 7 have no behaviour.
- Python's dynamic typing is not modelled. The fields could hold non-`str` values there; here they are `Option<string>` only.
- The exact exception classes and messages are not modelled. `TypeError` and `ValueError` become the `AbsentName` and `UnpackMismatch` error values.
- Strings are sequences of Dafny `char`s. Python `str` code points are not distinguished from them, and nothing depends on the difference, since only `.` is compared.
