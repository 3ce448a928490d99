/**
 * The HAVE_INOTIFY check, which depends on LIBC_VERSION: inotify is
 * available from glibc 2.4 on.
 */
module InotifyCheck {
  import opened Wrappers
  import opened Digits
  import opened LibcVersion
  import FutimesCheck

  /** The condition of the `#if` that defines HAVE_INOTIFY. */
  function HaveInotify(env: Env): (r: bool)
    requires LibcVersionOk(env)
    ensures r ==> env.glibcMajor.Some? && env.glibcMinor.Some?
  {
    GlibcPrereq(env, 2, 4)
  }

  /**
   * Processing the header: the prior definition of HAVE_INOTIFY is dropped by
   * `#undef`, then the macro is defined to 1 exactly when the condition
   * holds. The result is the macro afterwards, or the error of LIBC_VERSION.
   */
  function CheckHaveInotify(prior: Option<int>, env: Env): (r: Result<Option<int>, Error>)
    ensures r.Failure? <==> !LibcVersionOk(env)
    ensures r.Failure? ==> r.error == MacMinRequiredNotDefined
    ensures r.Success? ==> (r.value.Some? <==> HaveInotify(env))
    ensures r.Success? && r.value.Some? ==> r.value.value == 1
  {
    match CheckLibcVersion(env)
    case Fail(e) => Failure(e)
    case Pass => Success(if HaveInotify(env) then Some(1) else None)
  }

  /** With a minor below 65536, HAVE_INOTIFY is set exactly from glibc 2.4 on. */
  lemma InotifyFollowsGlibcVersion(env: Env)
    requires LibcVersionOk(env)
    requires env.glibcMajor.Some? && env.glibcMinor.Some? && 0 <= env.glibcMinor.value < 65536
    ensures HaveInotify(env) <==> LexGe(env.glibcMajor.value, env.glibcMinor.value, 2, 4)
  {
    GlibcPrereqIsLexicographic(env, 2, 4);
  }

  /** glibc 2.4 sets the flag and glibc 2.3 does not, whatever else is defined. */
  lemma InotifyGlibcBoundary(env: Env, env': Env)
    requires LibcVersionOk(env) && LibcVersionOk(env')
    requires env.glibcMajor == Some(2) && env.glibcMinor == Some(4)
    requires env'.glibcMajor == Some(2) && env'.glibcMinor == Some(3)
    ensures HaveInotify(env)
    ensures !HaveInotify(env')
  {
  }

  /**
   * Every passing environment without both glibc macros (FreeBSD, OpenBSD,
   * NetBSD, Apple or none at all) leaves HAVE_INOTIFY undefined.
   */
  lemma InotifyNeedsGlibc(prior: Option<int>, env: Env)
    requires LibcVersionOk(env)
    requires env.glibcMajor.None? || env.glibcMinor.None?
    ensures CheckHaveInotify(prior, env) == Success(None)
  {
  }

  /** HAVE_INOTIFY implies HAVE_FUTIMES: glibc 2.4 is beyond glibc 2.3. */
  lemma InotifyImpliesFutimes(env: Env)
    requires LibcVersionOk(env)
    ensures HaveInotify(env) ==> FutimesCheck.HaveFutimes(env)
  {
  }

  /** The macro depends on the environment only, never on what was defined before. */
  lemma CheckHaveInotifyIgnoresPrior(prior: Option<int>, prior': Option<int>, env: Env)
    ensures CheckHaveInotify(prior, env) == CheckHaveInotify(prior', env)
  {
  }
}
