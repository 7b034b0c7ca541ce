/**
 * The pure parts of log configuration (app/src/utils/tracing.rs): mapping
 * configuration strings to a file rotation and a level, the application name
 * taken from the module path, and the "this application only" target filter.
 */
module Tracing {

  datatype Rotation = Minutely | Hourly | Daily | Never

  datatype Level = Trace | Debug | Info | Warn | Error

  /** `into_rotation`: an exact, case-sensitive match, with DAILY for every other string. */
  function IntoRotation(s: string): (r: Rotation)
    ensures r == Minutely <==> s == "MINUTELY"
    ensures r == Hourly <==> s == "HOURLY"
    ensures r == Never <==> s == "NEVER"
  {
    match s
    case "MINUTELY" => Minutely
    case "HOURLY" => Hourly
    case "NEVER" => Never
    case _ => Daily
  }

  /** `into_level`: an exact, case-sensitive match, with ERROR for every other string. */
  function IntoLevel(s: string): (r: Level)
    ensures r == Trace <==> s == "TRACE"
    ensures r == Debug <==> s == "DEBUG"
    ensures r == Info <==> s == "INFO"
    ensures r == Warn <==> s == "WARN"
  {
    match s
    case "TRACE" => Trace
    case "DEBUG" => Debug
    case "INFO" => Info
    case "WARN" => Warn
    case _ => Error
  }

  /** The configuration spelling of each rotation. */
  function RotationName(r: Rotation): string {
    match r
    case Minutely => "MINUTELY"
    case Hourly => "HOURLY"
    case Daily => "DAILY"
    case Never => "NEVER"
  }

  /** The configuration spelling of each level. */
  function LevelName(l: Level): string {
    match l
    case Trace => "TRACE"
    case Debug => "DEBUG"
    case Info => "INFO"
    case Warn => "WARN"
    case Error => "ERROR"
  }

  /** Each rotation is reached from its own name, and a non-default rotation only from it. */
  lemma RotationNames(r: Rotation, s: string)
    ensures IntoRotation(RotationName(r)) == r
    ensures IntoRotation(s) == r && r != Daily ==> s == RotationName(r)
  {
  }

  /** Each level is reached from its own name, and a level other than ERROR only from it. */
  lemma LevelNames(l: Level, s: string)
    ensures IntoLevel(LevelName(l)) == l
    ensures IntoLevel(s) == l && l != Error ==> s == LevelName(l)
  {
  }

  /** Lower-case spellings fall through to the defaults. */
  lemma CaseSensitive()
    ensures IntoLevel("debug") == Error && IntoRotation("hourly") == Daily
  {
  }

  /** `s` has the separator "::" at position `i`. */
  predicate SeparatorAt(s: string, i: int) {
    0 <= i && i + 1 < |s| && s[i] == ':' && s[i + 1] == ':'
  }

  /**
   * `path.split("::").next()`: the part of a module path before its first "::"
   * (the whole path when it has none).
   */
  function FirstSegment(path: string): (r: string)
    ensures |r| <= |path| && r == path[..|r|]
    ensures forall i | 0 <= i < |r| :: !SeparatorAt(path, i)
    ensures r == path || SeparatorAt(path, |r|)
  {
    if |path| < 2 then path
    else if path[0] == ':' && path[1] == ':' then []
    else
      var rest := FirstSegment(path[1..]);
      assert forall i | 1 <= i < |path| :: SeparatorAt(path, i) == SeparatorAt(path[1..], i - 1);
      [path[0]] + rest
  }

  /** The three properties of `FirstSegment` single it out among all strings. */
  lemma {:induction false} FirstSegmentUnique(path: string, q: string)
    requires |q| <= |path| && q == path[..|q|]
    requires forall i | 0 <= i < |q| :: !SeparatorAt(path, i)
    requires q == path || SeparatorAt(path, |q|)
    ensures q == FirstSegment(path)
  {
    var r := FirstSegment(path);
    assert |q| == |r|;
    assert q == path[..|q|] == r;
  }

  /** The application name: the first segment of the module path of the tracing module. */
  function AppName(modulePath: string): (r: string)
    ensures forall i | 0 <= i < |r| :: !SeparatorAt(modulePath, i)
  {
    FirstSegment(modulePath)
  }

  /** The crate of `crate::utils::tracing` is named by the segment before the first "::". */
  lemma {:induction false} AppNameOfModule(crate: string, rest: string)
    requires forall i | 0 <= i < |crate| :: !SeparatorAt(crate + "::" + rest, i)
    ensures AppName(crate + "::" + rest) == crate
  {
    var path := crate + "::" + rest;
    assert path[..|crate|] == crate;
    assert SeparatorAt(path, |crate|);
    FirstSegmentUnique(path, crate);
  }

  /** The writer filter: with `appOnly` only events whose target starts with the application name pass. */
  function Admits(appOnly: bool, appName: string, target: string): (pass: bool)
    ensures !appOnly ==> pass
    ensures appOnly ==> (pass <==> appName <= target)
  {
    if appOnly then |appName| <= |target| && target[..|appName|] == appName else true
  }

  /**
   * The filter is a prefix test on the text, not on the crate: a target in a
   * crate whose name merely extends the application's name passes as well.
   */
  lemma AdmitsLongerCrateNames(appName: string, other: string, rest: string)
    requires other != [] && (forall i | 0 <= i < |appName + other| :: !SeparatorAt(appName + other + "::" + rest, i))
    ensures Admits(true, appName, appName + other + "::" + rest)
    ensures AppName(appName + other + "::" + rest) != appName
  {
    var target := appName + other + "::" + rest;
    assert target[..|appName|] == appName;
    assert appName + other + "::" + rest == (appName + other) + "::" + rest;
    AppNameOfModule(appName + other, rest);
  }
}
