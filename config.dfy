/** Engine configuration: the sharing policy flags and the debug toggles. */
module Config {

  /** Which of the two restricted directions may exchange equalities. */
  datatype SharingConfig = SharingConfig(ufToDl: bool, dlToUf: bool)

  datatype DebugEqSharing = DebugEqSharing(
    enabled: bool,
    maxReasonLits: nat,
    logImports: bool,
    logExports: bool,
    logSharedStats: bool)

  datatype EngineConfig = EngineConfig(sharing: SharingConfig, debugEq: DebugEqSharing)

  /** Both directions are allowed by default. */
  function DefaultSharingConfig(): (c: SharingConfig)
    ensures c.ufToDl && c.dlToUf
  {
    SharingConfig(true, true)
  }

  /** Diagnostics are off by default, with every log toggle on and 8 literals per reason. */
  function DefaultDebugEqSharing(): (d: DebugEqSharing)
    ensures !d.enabled && d.maxReasonLits == 8
    ensures d.logImports && d.logExports && d.logSharedStats
  {
    DebugEqSharing(false, 8, true, true, true)
  }

  function DefaultEngineConfig(): (c: EngineConfig)
    ensures c.sharing == DefaultSharingConfig() && c.debugEq == DefaultDebugEqSharing()
  {
    EngineConfig(DefaultSharingConfig(), DefaultDebugEqSharing())
  }
}
