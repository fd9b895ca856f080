/**
 * Which address string `ClientManager.findAndRegisterClientFor` starts from:
 * the static fallback address ("vip"), chosen directly in development mode,
 * or the answer of the discovery backend, with the vip as fallback when the
 * backend answers null or throws.
 */
module Resolution {
  import opened Wrappers
  import opened JavaText

  /** An answer from an external collaborator: a returned value, or an exception. */
  datatype Lookup<+T> = Returned(value: T) | Threw

  /** Why a bootstrap call ends with an exception. */
  datatype EntryCause = WeightLookupFailed | PortMissing | PortNotInteger

  datatype Failure =
    | DiscoveryFailed          // discovery threw and there is no vip to fall back on
    | NoServiceAddress         // the chosen address is null or blank
    | HostMissing(segment: string)   // `parts[0]` of a segment made only of ':'
    | EntryFailed(segment: string, cause: EntryCause)  // wrapped "error while getting service weight"

  /** `"dev".equals(env)`. */
  predicate IsDevEnv(env: Option<string>) { env == Some("dev") }

  /**
   * The body of the `try` block: in development mode with a vip set, the
   * vip; otherwise the discovery answer, replaced by the vip only when that
   * answer is null. `Threw` when `getEnv` or `getServiceAddress` throws.
   * `getEnv` is only consulted when the vip is set (`&&` short-circuits).
   */
  function TryResolve(vip: Option<string>, env: Lookup<Option<string>>, discovery: Lookup<Option<string>>)
    : (r: Lookup<Option<string>>)
    ensures r.Returned? ==> r.value == vip || discovery == Returned(r.value)
    ensures r.Threw? ==> env.Threw? || discovery.Threw?
  {
    if !IsBlank(vip) && env.Threw? then Threw
    else if !IsBlank(vip) && IsDevEnv(env.value) then Returned(vip)
    else
      match discovery
      case Threw => Threw
      case Returned(a) => Returned(if a.None? && !IsBlank(vip) then vip else a)
  }

  /** The `try`/`catch`: an exception falls back on the vip when it is set and escalates otherwise. */
  function ResolveAddress(vip: Option<string>, env: Lookup<Option<string>>, discovery: Lookup<Option<string>>)
    : (r: Result<Option<string>, Failure>)
    ensures r.Ok? ==> r.value == vip || discovery == Returned(r.value)
    ensures r.Err? ==> r.error == DiscoveryFailed && IsBlank(vip) && (env.Threw? || discovery.Threw?)
  {
    match TryResolve(vip, env, discovery)
    case Threw => if IsBlank(vip) then Err(DiscoveryFailed) else Ok(vip)
    case Returned(a) => Ok(a)
  }

  /** The address the entries are parsed from, after the blank check that follows the `try`. */
  function SelectAddress(vip: Option<string>, env: Lookup<Option<string>>, discovery: Lookup<Option<string>>)
    : (r: Result<string, Failure>)
    ensures r.Ok? ==> !AllWhitespace(r.value)
  {
    match ResolveAddress(vip, env, discovery)
    case Err(f) => Err(f)
    case Ok(a) => if IsBlank(a) then Err(NoServiceAddress) else Ok(a.value)
  }

  /** Development mode with a vip: the vip is used and the discovery answer plays no part. */
  lemma DevModeUsesVip(vip: Option<string>, discovery: Lookup<Option<string>>)
    requires !IsBlank(vip)
    ensures SelectAddress(vip, Returned(Some("dev")), discovery) == Ok(vip.value)
  {
  }

  /** Outside development mode, or with a blank vip, a non-null discovery answer is used as it is, even with a vip set. */
  lemma DiscoveryAnswerWins(vip: Option<string>, env: Lookup<Option<string>>, address: string)
    requires IsBlank(vip) || (env.Returned? && !IsDevEnv(env.value))
    ensures ResolveAddress(vip, env, Returned(Some(address))) == Ok(Some(address))
  {
  }

  /** A null discovery answer is replaced by the vip only when the vip is set; otherwise the call fails. */
  lemma NullAnswerFallsBack(vip: Option<string>, env: Lookup<Option<string>>)
    requires IsBlank(vip) || (env.Returned? && !IsDevEnv(env.value))
    ensures !IsBlank(vip) ==> SelectAddress(vip, env, Returned(None)) == Ok(vip.value)
    ensures IsBlank(vip) ==> SelectAddress(vip, env, Returned(None)) == Err(NoServiceAddress)
  {
  }

  /** Discovery throws: with a blank vip the call fails, with a vip set the vip is used and nothing is raised. */
  lemma DiscoveryThrows(vip: Option<string>, env: Lookup<Option<string>>)
    ensures IsBlank(vip) ==> SelectAddress(vip, env, Threw) == Err(DiscoveryFailed)
    ensures !IsBlank(vip) ==> SelectAddress(vip, env, Threw) == Ok(vip.value)
  {
  }

  /** An empty (or whitespace) discovery answer is NOT replaced by the vip: the call fails. */
  lemma BlankAnswerFails(vip: Option<string>, env: Lookup<Option<string>>, address: string)
    requires AllWhitespace(address)
    requires IsBlank(vip) || (env.Returned? && !IsDevEnv(env.value))
    ensures SelectAddress(vip, env, Returned(Some(address))) == Err(NoServiceAddress)
  {
  }

  /**
   * The choice as a whole: the address is the vip, or the discovery answer;
   * it fails exactly when discovery threw with no vip, or when nothing
   * non-blank was found.
   */
  lemma SelectAddressCases(vip: Option<string>, env: Lookup<Option<string>>, discovery: Lookup<Option<string>>)
    ensures SelectAddress(vip, env, discovery).Ok? ==>
      Some(SelectAddress(vip, env, discovery).value) == vip ||
      discovery == Returned(Some(SelectAddress(vip, env, discovery).value))
    ensures SelectAddress(vip, env, discovery) == Err(DiscoveryFailed) <==> IsBlank(vip) && discovery.Threw?
    ensures !IsBlank(vip) ==>
      (SelectAddress(vip, env, discovery).Ok? ||
       (discovery.Returned? && discovery.value.Some? && AllWhitespace(discovery.value.value)))
  {
  }

  /**
   * The environment is only asked when a vip is set; with a vip set, an
   * exception from `getEnv` is caught like one from discovery and the vip is used.
   */
  lemma EnvConsultedOnlyWithVip(vip: Option<string>, env1: Lookup<Option<string>>, env2: Lookup<Option<string>>,
                                discovery: Lookup<Option<string>>)
    ensures IsBlank(vip) ==> ResolveAddress(vip, env1, discovery) == ResolveAddress(vip, env2, discovery)
    ensures !IsBlank(vip) ==> ResolveAddress(vip, Threw, discovery) == Ok(vip)
  {
  }
}
