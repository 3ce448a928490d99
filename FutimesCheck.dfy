/**
 * The HAVE_FUTIMES check, which depends on LIBC_VERSION: futimes() is
 * available on glibc 2.3, FreeBSD 3.0, OpenBSD from the 199610 release,
 * NetBSD 1.2 and every Mac OS.
 */
module FutimesCheck {
  import opened Wrappers
  import opened Digits
  import opened LibcVersion

  /** The condition of the `#if` that defines HAVE_FUTIMES. */
  function HaveFutimes(env: Env): (r: bool)
    requires LibcVersionOk(env)
    ensures env.apple && env.mach ==> r
    ensures NoRecognisedPlatform(env) ==> !r
  {
    || GlibcPrereq(env, 2, 3)
    || FreebsdPrereq(env, 3, 0)
    || OpenbsdPrereq(env, 199610)
    || NetbsdPrereq(env, 1, 2)
    || (env.apple && env.mach)
  }

  /**
   * Processing the header: the prior definition of HAVE_FUTIMES is dropped by
   * `#undef`, then the macro is defined to 1 exactly when the condition
   * holds. The result is the macro afterwards, or the error of LIBC_VERSION.
   */
  function CheckHaveFutimes(prior: Option<int>, env: Env): (r: Result<Option<int>, Error>)
    ensures r.Failure? <==> !LibcVersionOk(env)
    ensures r.Failure? ==> r.error == MacMinRequiredNotDefined
    ensures r.Success? ==> (r.value.Some? <==> HaveFutimes(env))
    ensures r.Success? && r.value.Some? ==> r.value.value == 1
  {
    match CheckLibcVersion(env)
    case Fail(e) => Failure(e)
    case Pass => Success(if HaveFutimes(env) then Some(1) else None)
  }

  /** The condition spelled out on the raw macro values, with every threshold packed. */
  lemma HaveFutimesIff(env: Env)
    requires LibcVersionOk(env)
    ensures HaveFutimes(env) <==>
      || (env.glibcMajor.Some? && env.glibcMinor.Some? &&
          env.glibcMajor.value * 65536 + env.glibcMinor.value >= 131075)
      || (env.freebsdMajor.Some? && env.freebsdVersion.Some? && env.freebsdVersion.value >= 300000)
      || (env.openbsdMarker.Some? && env.openbsdRelease.Some? && env.openbsdRelease.value >= 199610)
      || (env.netbsdMarker.Some? && env.netbsdVersion.Some? && env.netbsdVersion.value >= 102000000)
      || (env.apple && env.mach)
  {
  }

  /** The macro depends on the environment only, never on what was defined before. */
  lemma CheckHaveFutimesIgnoresPrior(prior: Option<int>, prior': Option<int>, env: Env)
    ensures CheckHaveFutimes(prior, env) == CheckHaveFutimes(prior', env)
  {
  }

  /** Apple+Mach gets HAVE_FUTIMES whatever the deployment target; Apple without Mach does not. */
  lemma FutimesOnApple(target: int)
    ensures CheckHaveFutimes(None, Bare.(apple := true, mach := true, macosMinRequired := Some(target)))
            == Success(Some(1))
    ensures CheckHaveFutimes(None, Bare.(apple := true, macosMinRequired := Some(target))) == Success(None)
    ensures CheckHaveFutimes(None, Bare.(apple := true)) == Success(None)
  {
  }

  /** Every Apple+Mach environment without a deployment target stops with the error: no flag is produced. */
  lemma FutimesOnAppleWithoutTarget(prior: Option<int>, env: Env)
    requires env.apple && env.mach && env.macosMinRequired.None?
    ensures CheckHaveFutimes(prior, env) == Failure(MacMinRequiredNotDefined)
  {
  }

  /**
   * On a glibc-only environment (minor below 65536) HAVE_FUTIMES is set
   * exactly from glibc 2.3 on.
   */
  lemma FutimesOnGlibc(env: Env)
    requires env.glibcMajor.Some? && env.glibcMinor.Some? && 0 <= env.glibcMinor.value < 65536
    requires env.freebsdMajor.None? && env.openbsdMarker.None? && env.netbsdMarker.None? && !env.apple
    ensures LibcVersionOk(env)
    ensures HaveFutimes(env) <==> LexGe(env.glibcMajor.value, env.glibcMinor.value, 2, 3)
  {
    GlibcPrereqIsLexicographic(env, 2, 3);
  }

  /** glibc 2.3 sets the flag whatever else is defined; glibc 2.2 alone does not. */
  lemma FutimesGlibcBoundary(env: Env)
    requires LibcVersionOk(env)
    requires env.glibcMajor == Some(2) && env.glibcMinor == Some(3)
    ensures HaveFutimes(env)
    ensures !HaveFutimes(Bare.(glibcMajor := Some(2), glibcMinor := Some(2)))
  {
  }

  /** __FreeBSD_version 300000 sets the flag; 299999 alone does not. */
  lemma FutimesFreebsdBoundary()
    ensures HaveFutimes(Bare.(freebsdMajor := Some(3), freebsdVersion := Some(300000)))
    ensures !HaveFutimes(Bare.(freebsdMajor := Some(2), freebsdVersion := Some(299999)))
  {
  }

  /** OpenBSD 199610 sets the flag; any earlier release date alone does not. */
  lemma FutimesOpenbsdBoundary(release: int)
    requires release < 199610
    ensures HaveFutimes(Bare.(openbsdMarker := Some(1), openbsdRelease := Some(199610)))
    ensures !HaveFutimes(Bare.(openbsdMarker := Some(1), openbsdRelease := Some(release)))
  {
  }

  /** NetBSD 1.2 (102000000) sets the flag; NetBSD 1.1 (101000000) does not. */
  lemma FutimesNetbsdBoundary()
    ensures HaveFutimes(Bare.(netbsdMarker := Some(1), netbsdVersion := Some(102000000)))
    ensures !HaveFutimes(Bare.(netbsdMarker := Some(1), netbsdVersion := Some(101000000)))
  {
  }
}
