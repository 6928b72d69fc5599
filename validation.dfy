/**
 * The check that the command-line tool applies to its parsed arguments before
 * it starts: the repository location must name a web address, a `file://`
 * address or an absolute path, and a package version, when one is given
 * and is not empty, must be a non-empty string of digits once all its dots
 * are deleted. The result lists one error per failed
 * check, the location error first; the tool treats any error as failure.
 */
module ArgumentValidation {
  import opened Wrappers
  import opened Text

  /** The three modes the argument parser admits for `--mode`. */
  datatype Mode = Clone | Download | Local

  /** The parsed arguments: `--package_name`, `--repo_url` and `--mode` are
      required; `--version` and `--filter_substring` may be omitted. */
  datatype Arguments = Arguments(
    packageName: string,
    repoUrl: string,
    mode: Mode,
    version: Option<string>,
    filterSubstring: Option<string>)

  /** One error per check; the tool prints a fixed message for each. */
  datatype ValidationError = RepoUrlFormat | VersionFormat

  /** The address schemes accepted for the repository location. */
  const UrlSchemes: seq<string> := ["http://", "https://", "file://"]

  /** The location is a web or file address, or an absolute path. */
  predicate RepoUrlAccepted(url: string)
  {
    StartsWithAny(url, UrlSchemes) || StartsWith(url, "/")
  }

  /** `if args.version:` — an omitted version and the empty string are both
      skipped. */
  predicate VersionGiven(version: Option<string>)
  {
    version.Some? && version.value != ""
  }

  /** The version passes when it is skipped, or when deleting its dots leaves
      a non-empty string of digits. */
  predicate VersionAccepted(version: Option<string>)
  {
    VersionGiven(version) ==> IsDigitString(RemoveDots(version.value))
  }

  /** The errors found in the arguments: at most one per check, each present
      exactly when its check fails, the location error before the version
      error, and none at all exactly when both checks pass. */
  function Validate(args: Arguments): (errors: seq<ValidationError>)
    ensures |errors| <= 2
    ensures RepoUrlFormat in errors <==> !RepoUrlAccepted(args.repoUrl)
    ensures VersionFormat in errors <==> !VersionAccepted(args.version)
    ensures forall i, j :: 0 <= i < j < |errors| ==> errors[i] == RepoUrlFormat && errors[j] == VersionFormat
    ensures errors == [] <==> RepoUrlAccepted(args.repoUrl) && VersionAccepted(args.version)
  {
    var urlErrors := if RepoUrlAccepted(args.repoUrl) then [] else [RepoUrlFormat];
    var versionErrors := if VersionAccepted(args.version) then [] else [VersionFormat];
    urlErrors + versionErrors
  }

  /** The accepted locations are exactly those that begin, case-sensitively,
      with "http://", "https://", "file://" or "/". */
  lemma RepoUrlAcceptedIff(url: string)
    ensures RepoUrlAccepted(url) <==>
      StartsWith(url, "http://") || StartsWith(url, "https://") ||
      StartsWith(url, "file://") || StartsWith(url, "/")
  {
    if StartsWith(url, "http://") { assert StartsWith(url, UrlSchemes[0]); }
    if StartsWith(url, "https://") { assert StartsWith(url, UrlSchemes[1]); }
    if StartsWith(url, "file://") { assert StartsWith(url, UrlSchemes[2]); }
  }

  /** An accepted location begins with a lower-case 'h', a lower-case 'f' or
      '/': so one that starts with any other character, such as the 'H' of
      "HTTP://..." or the 'r' of "repo/...", is reported. RepoUrlAcceptedIff
      gives the full case-sensitive test. */
  lemma RepoUrlAcceptedFirstChar(url: string)
    requires RepoUrlAccepted(url)
    ensures url != [] && url[0] in {'h', 'f', '/'}
  {
  }

  /** A given, non-empty version passes exactly when it consists of digits and
      dots only and holds at least one digit; no X.Y.Z shape is demanded. */
  lemma VersionAcceptedIff(version: string)
    requires version != ""
    ensures VersionAccepted(Some(version)) <==> OnlyDigitsAndDots(version) && HasDigit(version)
  {
    DigitsAfterRemovingDots(version);
  }

  /** Omitting the version, or giving it as the empty string, never yields a
      version error. */
  lemma NoVersionNoVersionError(args: Arguments)
    requires args.version == None || args.version == Some("")
    ensures VersionFormat !in Validate(args)
  {
  }

  /** Whether the location error is reported depends on the location alone. */
  lemma RepoUrlErrorDependsOnlyOnUrl(a: Arguments, b: Arguments)
    requires a.repoUrl == b.repoUrl
    ensures (RepoUrlFormat in Validate(a)) == (RepoUrlFormat in Validate(b))
  {
  }

  /** Whether the version error is reported depends on the version alone. */
  lemma VersionErrorDependsOnlyOnVersion(a: Arguments, b: Arguments)
    requires a.version == b.version
    ensures (VersionFormat in Validate(a)) == (VersionFormat in Validate(b))
  {
  }

  /** The package name, the mode and the filter substring never cause an
      error: arguments that differ only in those validate alike. */
  lemma OtherArgumentsIgnored(a: Arguments, b: Arguments)
    requires a.repoUrl == b.repoUrl && a.version == b.version
    ensures Validate(a) == Validate(b)
  {
  }

  /** When both checks fail the result is exactly the two errors, location
      first. */
  lemma BothChecksFail(args: Arguments)
    requires !RepoUrlAccepted(args.repoUrl) && !VersionAccepted(args.version)
    ensures Validate(args) == [RepoUrlFormat, VersionFormat]
  {
  }

  /** Versions at the edges: dots alone are refused; repeated, leading and
      trailing dots are not, and neither is a letter-free dotted triple. */
  lemma VersionExamples()
    ensures !VersionAccepted(Some("."))
    ensures !VersionAccepted(Some("..."))
    ensures !VersionAccepted(Some("1.2a"))
    ensures VersionAccepted(Some("1..2"))
    ensures VersionAccepted(Some(".5."))
    ensures VersionAccepted(Some("1.2.3"))
  {
    VersionAcceptedIff(".");
    VersionAcceptedIff("...");
    VersionAcceptedIff("1.2a");
    assert !IsDigit("1.2a"[3]);
    VersionAcceptedIff("1..2");
    assert IsDigit("1..2"[0]);
    VersionAcceptedIff(".5.");
    assert IsDigit(".5."[1]);
    VersionAcceptedIff("1.2.3");
    assert IsDigit("1.2.3"[0]);
  }

  /** Locations at the edges: the scheme match is case-sensitive and needs
      the full "://", and a relative path is refused. */
  lemma RepoUrlExamples()
    ensures !RepoUrlAccepted("HTTP://deb.debian.org")
    ensures !RepoUrlAccepted("file:/srv/repo")
    ensures !RepoUrlAccepted("repo/Packages")
    ensures !RepoUrlAccepted("")
    ensures RepoUrlAccepted("https://deb.debian.org/debian")
    ensures RepoUrlAccepted("/srv/repo/Packages.gz")
  {
    var web := "https://deb.debian.org/debian";
    RepoUrlAcceptedIff(web);
    assert StartsWith(web, "https://");
    var absolute := "/srv/repo/Packages.gz";
    RepoUrlAcceptedIff(absolute);
    assert StartsWith(absolute, "/");
    if RepoUrlAccepted("HTTP://deb.debian.org") { RepoUrlAcceptedFirstChar("HTTP://deb.debian.org"); }
    if RepoUrlAccepted("repo/Packages") { RepoUrlAcceptedFirstChar("repo/Packages"); }
    if RepoUrlAccepted("") { RepoUrlAcceptedFirstChar(""); }
    var short := "file:/srv/repo";
    RepoUrlAcceptedIff(short);
    MismatchNotPrefix(short, "http://", 0);
    MismatchNotPrefix(short, "https://", 0);
    MismatchNotPrefix(short, "file://", 6);
    MismatchNotPrefix(short, "/", 0);
  }

  /** The scheme match is case-sensitive in every letter, not only the first,
      and a relative path is refused even when it begins with 'h' or 'f'. */
  lemma RepoUrlCaseExamples()
    ensures !RepoUrlAccepted("hTTP://deb.debian.org")
    ensures !RepoUrlAccepted("files/Packages")
  {
    var upper := "hTTP://deb.debian.org";
    RepoUrlAcceptedIff(upper);
    MismatchNotPrefix(upper, "http://", 1);
    MismatchNotPrefix(upper, "https://", 1);
    MismatchNotPrefix(upper, "file://", 0);
    MismatchNotPrefix(upper, "/", 0);
    var relative := "files/Packages";
    RepoUrlAcceptedIff(relative);
    MismatchNotPrefix(relative, "http://", 0);
    MismatchNotPrefix(relative, "https://", 0);
    MismatchNotPrefix(relative, "file://", 4);
    MismatchNotPrefix(relative, "/", 0);
  }
}
