/**
 * The command-line constraints of `handleArguments` in main.c, over the
 * values `atoi`/`atof` have already produced.
 */
module Arguments {
  import Tau

  datatype Args = Args(
    nProcesses: int,
    nCpuProcesses: int,
    seed: int,
    lambda: real,
    ceiling: int,
    contextSwitch: int,
    alpha: real,
    timeSlice: int)

  /** `handleArguments` returns normally exactly when this holds; otherwise it exits. */
  function Accepts(argc: int, a: Args): (ok: bool)
    ensures ok ==> argc == 9
    // The positive form of the argument count test (main.c:56) and the rejection test (main.c:71-73).
    ensures ok <==>
      && argc == 9
      && a.nProcesses > 0
      && 0 <= a.nCpuProcesses <= a.nProcesses
      && a.seed >= 0
      && a.lambda > 0.0
      && a.ceiling > 0
      && a.contextSwitch > 0 && a.contextSwitch % 2 == 0
      && 0.0 <= a.alpha <= 1.0
      && a.timeSlice > 0
  {
    if argc != 9 then false
    else !(a.nProcesses <= 0 || a.nCpuProcesses < 0 || a.nCpuProcesses > a.nProcesses || a.seed < 0
           || a.lambda <= 0.0 || a.ceiling <= 0 || a.contextSwitch <= 0 || a.contextSwitch % 2 != 0
           || a.alpha < 0.0 || a.alpha > 1.0 || a.timeSlice <= 0)
  }

  /**
   * An accepted context-switch time splits exactly into a switch-out and a
   * switch-in half of at least 1 ms each.
   */
  lemma AcceptedSwitchHalves(argc: int, a: Args)
    requires Accepts(argc, a)
    ensures a.contextSwitch / 2 + a.contextSwitch / 2 == a.contextSwitch
    ensures a.contextSwitch / 2 >= 1
  {
  }

  /**
   * Every accepted alpha also passes the SJF check, but the sentinel -1 that
   * the SJF check admits is refused here.
   */
  lemma AcceptedAlphaIsNotSentinel(argc: int, a: Args)
    requires Accepts(argc, a)
    ensures Tau.SjfAlphaAccepted(a.alpha)
    ensures a.alpha != -1.0
    ensures !Accepts(argc, a.(alpha := -1.0)) && Tau.SjfAlphaAccepted(-1.0)
  {
  }

  /** The initial estimate seeded from an accepted lambda is positive. */
  lemma AcceptedInitialTauPositive(argc: int, a: Args)
    requires Accepts(argc, a)
    ensures Tau.InitialTau(a.lambda) >= 1
  {
  }
}
