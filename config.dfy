/**
 * The validator's configuration and the rules `_assert_configuration`
 * checks before any validation: the stages must be enabled as a prefix of
 * syntax, integrity, topology, and validating a service past its syntax
 * needs a directory and an extension to find its functions in.
 */
module Configs {

  /** The public entry point that asked for the check; the source reads it
      from the call stack. */
  datatype Scope = PackageScope | ProjectScope | ServiceScope | FunctionScope | OtherScope

  /** The fields `configure` sets.  A directory, extension or rules file
      that is not given is the empty string (falsy, like None). */
  datatype Config = Config(
    syntax: bool, integrity: bool, topology: bool, custom: bool,
    dpath: string, dext: string, cfile: string)

  /** The errors `_assert_configuration` logs, in the order it may log them. */
  datatype ConfigError =
    | NoScope
    | IntegrityWithoutSyntax
    | TopologyWithoutIntegrity
    | CustomWithoutTopology
    | NothingToValidate
    | MissingSearchPath
    | MissingCustomRules

  /** The errors that abort the validation; the other two are only logged. */
  predicate Fatal(e: ConfigError) {
    e != CustomWithoutTopology && e != MissingCustomRules
  }

  /** A configuration fit for the scope: a known caller; stages enabled in
      order (integrity needs syntax, topology needs integrity); syntax on;
      and, for a service checked past its syntax, both a search path and a
      descriptor extension. */
  predicate ConfigOk(c: Config, scope: Scope) {
    scope != OtherScope &&
    (c.integrity ==> c.syntax) &&
    (c.topology ==> c.integrity) &&
    c.syntax &&
    (scope == ServiceScope && (c.integrity || c.topology) ==> c.dpath != "" && c.dext != "")
  }

  /** `_assert_configuration`: whether the validation may go on, and the
      errors logged on the way, in order.  The first error of a stage
      prerequisite, a missing scope or a disabled syntax check ends it; a
      custom check without topology or, for a service, without a rules file
      is only logged. */
  function AssertConfiguration(c: Config, scope: Scope): (r: (bool, seq<ConfigError>))
    ensures r.0 <==> ConfigOk(c, scope)
    ensures r.0 ==> forall k | 0 <= k < |r.1| :: !Fatal(r.1[k])
    ensures !r.0 ==> |r.1| > 0 && Fatal(r.1[|r.1| - 1])
  {
    if scope == OtherScope then (false, [NoScope])
    else if c.integrity && !c.syntax then (false, [IntegrityWithoutSyntax])
    else if c.topology && !c.integrity then (false, [TopologyWithoutIntegrity])
    else
      var custom := if c.custom && !c.topology then [CustomWithoutTopology] else [];
      if !c.syntax then (false, custom + [NothingToValidate])
      else if scope == ServiceScope && (c.integrity || c.topology) && !(c.dpath != "" && c.dext != "") then
        (false, custom + [MissingSearchPath])
      else if scope == ServiceScope && c.custom && !(c.dpath != "" && c.dext != "" && c.cfile != "") then
        (true, custom + [MissingCustomRules])
      else (true, custom)
  }

  /** The custom-rules switch and the rules file never decide whether a
      validation may go on; a custom check without topology is reported
      exactly when the stages are otherwise in order. */
  lemma CustomNeverFatal(c: Config, scope: Scope, custom: bool, cfile: string)
    ensures AssertConfiguration(c.(custom := custom, cfile := cfile), scope).0 == AssertConfiguration(c, scope).0
    ensures CustomWithoutTopology in AssertConfiguration(c, scope).1 <==>
      scope != OtherScope && (c.integrity ==> c.syntax) && (c.topology ==> c.integrity) && c.custom && !c.topology
  {
  }
}
