# Argument validation of the package-dependency tool

The command-line front end of the dependency tool (`pr2-s1.py`) accepts a
package name, a repository location (`--repo_url`), a mode, an optional
package version and an optional filter substring. Before it does anything
else it validates two of them with `validate_arguments`:

- the repository location must begin with `http://`, `https://`, `file://`
  or `/` (a case-sensitive prefix test);
- a version, when one is given and is not the empty string, must be a
  non-empty string of digits once all its dots are deleted.

The function returns the list of error messages, the location error first;
`main` treats a non-empty list as failure and exits with status 1.

This project models that validator as pure Dafny functions:

- `wrappers.dfy` — `Option`, for arguments that may be omitted;
- `text.dfy` — module `Text`, the Python string operations the validator
  uses: `startswith` with a prefix and with a tuple of prefixes,
  `replace('.', '')` and `isdigit`, with lemmas about them;
- `validation.dfy` — module `ArgumentValidation`: the parsed arguments, the
  two error kinds, `Validate`, and lemmas that characterise when each error
  appears.

## Model

| member | source | states |
|---|---|---|
| `ArgumentValidation.Validate` | pr2-s1.py:5-20 | at most two errors; the location error is present exactly when the location check fails, the version error exactly when the version check fails; the location error comes before the version error and no error repeats; the list is empty exactly when both checks pass (the condition `main` tests at lines 84-91) |
| `ArgumentValidation.RepoUrlAcceptedIff` | pr2-s1.py:10-12 | a location is accepted exactly when it starts with one of "http://", "https://", "file://" or "/" |
| `ArgumentValidation.RepoUrlAcceptedFirstChar` | pr2-s1.py:10-12 | an accepted location is non-empty and begins with a lower-case 'h', a lower-case 'f' or '/', so a location starting with any other character (the 'H' of "HTTP://…", the 'r' of "repo/…") is refused; `RepoUrlAcceptedIff` gives the full case-sensitive test |
| `ArgumentValidation.RepoUrlExamples` | pr2-s1.py:10-12 | "HTTP://…", "file:/…", a relative path and the empty string are refused; an https address and an absolute path are accepted |
| `ArgumentValidation.RepoUrlCaseExamples` | pr2-s1.py:10-12 | the mixed-case "hTTP://…" and the relative path "files/…" are refused: every letter of the scheme must match, and a leading 'h' or 'f' is not enough |
| `ArgumentValidation.RepoUrlErrorDependsOnlyOnUrl` | pr2-s1.py:10-12 | two argument sets with the same location agree on whether the location error is reported |
| `ArgumentValidation.NoVersionNoVersionError` | pr2-s1.py:15 | an omitted or empty version never yields a version error |
| `ArgumentValidation.VersionAcceptedIff` | pr2-s1.py:15-18 | a given non-empty version passes exactly when it holds only digits and dots and at least one digit |
| `ArgumentValidation.VersionExamples` | pr2-s1.py:15-18 | "." , "..." and "1.2a" are refused; "1..2", ".5." and "1.2.3" are accepted (no X.Y.Z shape is enforced) |
| `ArgumentValidation.VersionErrorDependsOnlyOnVersion` | pr2-s1.py:15-18 | two argument sets with the same version agree on whether the version error is reported |
| `ArgumentValidation.OtherArgumentsIgnored` | pr2-s1.py:5-20 | package name, mode and filter substring never influence the result |
| `ArgumentValidation.BothChecksFail` | pr2-s1.py:9-18 | when both checks fail the result is exactly [location error, version error] |
| `Text.StartsWithAny` | pr2-s1.py:10 | `startswith` with a tuple is true exactly when some prefix in the tuple matches |
| `Text.RemoveDots` | pr2-s1.py:16 | `replace('.', '')` leaves no dot, is no longer than its input, leaves a dot-free string unchanged and keeps the count of every other character |
| `Text.RemoveDotsAppend` | pr2-s1.py:16 | deleting dots distributes over concatenation |
| `Text.RemoveDotsSingle` | pr2-s1.py:16 | a single character is removed exactly when it is '.' (with the previous row this determines the operation) |
| `Text.RemoveDotsLeaves` | pr2-s1.py:16 | after deleting dots only digits remain exactly when the input holds only digits and dots; something remains exactly when the input holds a non-dot character |
| `Text.DigitsAfterRemovingDots` | pr2-s1.py:16 | `s.replace('.', '').isdigit()` holds exactly when `s` holds only digits and dots and at least one digit |

## Left out

- `main` (pr2-s1.py:22-100): argument parsing, help output, printing the errors and the settings, and the process exit status are input/output and are not modelled.
- The enforcement of required arguments and of the three `--mode` choices is done by the argument-parsing library; the model takes it as given by its types (`Mode` has exactly the three choices, the required fields are not optional).
- The error messages are fixed Russian texts; the model represents them by the two tags `RepoUrlFormat` and `VersionFormat`.
- `Text.IsDigitString`: Python's `str.isdigit` also accepts non-ASCII digit characters (superscripts, other scripts' digits); the model accepts only the ASCII digits '0'..'9'.
