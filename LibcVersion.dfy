/**
 * The LIBC_VERSION check: the five BUILD2_AUTOCONF_*_PREREQ version
 * predicates and the Mac OS missing-macro error.
 *
 * The preprocessor environment is an `Env`: for every macro the predicates
 * read, either its value or `None` when it is not defined. Each predicate is
 * always defined; when its guarding macros are not both defined it is the
 * constant 0, i.e. false.
 */
module LibcVersion {
  import opened Wrappers
  import opened Digits

  /** The platform macros the check reads, as supplied by the compiler and system headers. */
  datatype Env = Env(
    glibcMajor: Option<int>,        // __GLIBC__
    glibcMinor: Option<int>,        // __GLIBC_MINOR__
    freebsdMajor: Option<int>,      // __FreeBSD__
    freebsdVersion: Option<int>,    // __FreeBSD_version, MMmmXXX
    openbsdMarker: Option<int>,     // __OpenBSD__
    openbsdRelease: Option<int>,    // OpenBSD, YYYYMM
    netbsdMarker: Option<int>,      // __NetBSD__
    netbsdVersion: Option<int>,     // __NetBSD_Version__, MMmmrrpp00
    apple: bool,                    // defined(__APPLE__)
    mach: bool,                     // defined(__MACH__)
    macosMinRequired: Option<int>   // __MAC_OS_X_VERSION_MIN_REQUIRED
  )

  /** An environment in which none of the macros above is defined. */
  const Bare: Env := Env(None, None, None, None, None, None, None, None, false, false, None)

  /** The diagnostic of the `#error` directive. */
  datatype Error = MacMinRequiredNotDefined

  /** None of the platform identification macros is defined. */
  predicate NoRecognisedPlatform(env: Env) {
    && env.glibcMajor.None?
    && env.freebsdMajor.None?
    && env.openbsdMarker.None?
    && env.netbsdMarker.None?
    && !(env.apple && env.mach)
  }

  /**
   * Processing the header: on Apple+Mach without a minimum deployment target
   * the header stops with `#error`; everywhere else it goes through.
   */
  function CheckLibcVersion(env: Env): (r: Outcome<Error>)
    ensures r.Fail? <==> env.apple && env.mach && env.macosMinRequired.None?
    ensures r.Fail? ==> r.error == MacMinRequiredNotDefined
  {
    if env.apple && env.mach && env.macosMinRequired.None? then
      Fail(MacMinRequiredNotDefined)
    else
      Pass
  }

  /** The header was processed without error, so the predicates are available. */
  predicate LibcVersionOk(env: Env) {
    CheckLibcVersion(env).Pass?
  }

  // ---------------------------------------------------------------- glibc

  /** C's `x << 16` on a non-negative int (negative operands are undefined behaviour in C). */
  function Shl16(x: int): int {
    x * 65536
  }

  /** The glibc version packed as `(major << 16) + minor`. */
  function GlibcEncode(major: int, minor: int): int {
    Shl16(major) + minor
  }

  /**
   * BUILD2_AUTOCONF_GLIBC_PREREQ(maj, min): the current glibc version, packed,
   * is at least the packed threshold. glibc's own __GLIBC_PREREQ, used when it
   * is defined, is taken to compute the same formula.
   */
  function GlibcPrereq(env: Env, maj: int, min: int): (r: bool)
    ensures r ==> env.glibcMajor.Some? && env.glibcMinor.Some?
  {
    env.glibcMajor.Some? && env.glibcMinor.Some? &&
    GlibcEncode(env.glibcMajor.value, env.glibcMinor.value) >= GlibcEncode(maj, min)
  }

  /** With both minors below 65536 the packed comparison is the lexicographic one. */
  lemma GlibcPrereqIsLexicographic(env: Env, maj: int, min: int)
    requires env.glibcMajor.Some? && env.glibcMinor.Some?
    requires 0 <= env.glibcMinor.value < 65536 && 0 <= min < 65536
    ensures GlibcPrereq(env, maj, min) <==> LexGe(env.glibcMajor.value, env.glibcMinor.value, maj, min)
  {
    PositionalCompare(env.glibcMajor.value, env.glibcMinor.value, maj, min, 65536);
  }

  /** A minor of 65536 or more carries into the major field: 2.65536 passes a 3.0 threshold. */
  lemma GlibcMinorCarries()
    ensures GlibcPrereq(Bare.(glibcMajor := Some(2), glibcMinor := Some(65536)), 3, 0)
    ensures !LexGe(2, 65536, 3, 0)
  {
  }

  /** Raising the current glibc version or lowering the threshold never turns the predicate false. */
  lemma GlibcPrereqMonotone(env: Env, env': Env, maj: int, min: int, maj': int, min': int)
    requires GlibcPrereq(env, maj, min)
    requires env'.glibcMajor.Some? && env'.glibcMinor.Some?
    requires GlibcEncode(env'.glibcMajor.value, env'.glibcMinor.value)
             >= GlibcEncode(env.glibcMajor.value, env.glibcMinor.value)
    requires GlibcEncode(maj', min') <= GlibcEncode(maj, min)
    ensures GlibcPrereq(env', maj', min')
  {
  }

  /** Any two glibc versions (minors below 65536) are told apart by some threshold. */
  lemma GlibcPrereqSeparates(env: Env, env': Env)
    requires env.glibcMajor.Some? && env.glibcMinor.Some? && 0 <= env.glibcMinor.value < 65536
    requires env'.glibcMajor.Some? && env'.glibcMinor.Some? && 0 <= env'.glibcMinor.value < 65536
    requires (env.glibcMajor, env.glibcMinor) != (env'.glibcMajor, env'.glibcMinor)
    ensures exists maj, min :: 0 <= min < 65536 && GlibcPrereq(env, maj, min) != GlibcPrereq(env', maj, min)
  {
    var major, minor := env.glibcMajor.value, env.glibcMinor.value;
    var major', minor' := env'.glibcMajor.value, env'.glibcMinor.value;
    if LexGe(major, minor, major', minor') {
      assert GlibcPrereq(env, major, minor) && !GlibcPrereq(env', major, minor);
    } else {
      assert GlibcPrereq(env', major', minor') && !GlibcPrereq(env, major', minor');
    }
  }

  // -------------------------------------------------------------- FreeBSD

  /** The FreeBSD threshold `maj*100000 + min*1000` (the XXX tail is zero). */
  function FreebsdEncode(maj: int, min: int): int {
    maj * 100000 + min * 1000
  }

  /** BUILD2_AUTOCONF_FREEBSD_PREREQ(maj, min): __FreeBSD_version is at least the threshold. */
  function FreebsdPrereq(env: Env, maj: int, min: int): (r: bool)
    ensures r ==> env.freebsdMajor.Some? && env.freebsdVersion.Some?
  {
    env.freebsdMajor.Some? && env.freebsdVersion.Some? &&
    env.freebsdVersion.value >= FreebsdEncode(maj, min)
  }

  /** For a native MMmmXXX value the XXX tail never changes the answer. */
  lemma FreebsdPrereqIgnoresTail(env: Env, major: int, minor: int, tail: int, maj: int, min: int)
    requires env.freebsdMajor.Some?
    requires env.freebsdVersion == Some(major * 100000 + minor * 1000 + tail)
    requires 0 <= minor < 100 && 0 <= tail < 1000 && 0 <= min < 100
    ensures FreebsdPrereq(env, maj, min) <==> LexGe(major, minor, maj, min)
  {
    FieldCompare(major, minor, tail, maj, min, 100, 1000);
  }

  /** Raising __FreeBSD_version or lowering the threshold never turns the predicate false. */
  lemma FreebsdPrereqMonotone(env: Env, env': Env, maj: int, min: int, maj': int, min': int)
    requires FreebsdPrereq(env, maj, min)
    requires env'.freebsdMajor.Some? && env'.freebsdVersion.Some?
    requires env'.freebsdVersion.value >= env.freebsdVersion.value
    requires FreebsdEncode(maj', min') <= FreebsdEncode(maj, min)
    ensures FreebsdPrereq(env', maj', min')
  {
  }

  /** Two FreeBSD versions with different MMmm fields are told apart by some threshold. */
  lemma FreebsdPrereqSeparates(env: Env, env': Env, major: int, minor: int, tail: int,
                               major': int, minor': int, tail': int)
    requires env.freebsdMajor.Some? && env.freebsdVersion == Some(major * 100000 + minor * 1000 + tail)
    requires env'.freebsdMajor.Some? && env'.freebsdVersion == Some(major' * 100000 + minor' * 1000 + tail')
    requires 0 <= minor < 100 && 0 <= tail < 1000 && 0 <= minor' < 100 && 0 <= tail' < 1000
    requires (major, minor) != (major', minor')
    ensures exists maj, min :: 0 <= min < 100 && FreebsdPrereq(env, maj, min) != FreebsdPrereq(env', maj, min)
  {
    if LexGe(major, minor, major', minor') {
      assert FreebsdPrereq(env, major, minor) && !FreebsdPrereq(env', major, minor);
    } else {
      assert FreebsdPrereq(env', major', minor') && !FreebsdPrereq(env, major', minor');
    }
  }

  // -------------------------------------------------------------- OpenBSD

  /** BUILD2_AUTOCONF_OPENBSD_PREREQ(yyyymm): the OpenBSD macro is at least yyyymm, untransformed. */
  function OpenbsdPrereq(env: Env, yyyymm: int): (r: bool)
    ensures r ==> env.openbsdMarker.Some? && env.openbsdRelease.Some?
  {
    env.openbsdMarker.Some? && env.openbsdRelease.Some? &&
    env.openbsdRelease.value >= yyyymm
  }

  /** On a YYYYMM release date the comparison orders releases by (year, month). */
  lemma OpenbsdPrereqFollowsReleaseDate(env: Env, year: int, month: int, y: int, m: int)
    requires env.openbsdMarker.Some? && env.openbsdRelease == Some(year * 100 + month)
    requires 1 <= month <= 12 && 1 <= m <= 12
    ensures OpenbsdPrereq(env, y * 100 + m) <==> LexGe(year, month, y, m)
  {
    PositionalCompare(year, month, y, m, 100);
  }

  /** OpenBSD 7.0 (October 2021, 202110) is later than 2.0 (199610) and earlier than April 2022. */
  lemma OpenbsdSevenZero()
    ensures OpenbsdPrereq(Bare.(openbsdMarker := Some(1), openbsdRelease := Some(202110)), 199610)
    ensures !OpenbsdPrereq(Bare.(openbsdMarker := Some(1), openbsdRelease := Some(202110)), 202204)
  {
  }

  /** Raising the release date or lowering the threshold never turns the predicate false. */
  lemma OpenbsdPrereqMonotone(env: Env, env': Env, yyyymm: int, yyyymm': int)
    requires OpenbsdPrereq(env, yyyymm)
    requires env'.openbsdMarker.Some? && env'.openbsdRelease.Some?
    requires env'.openbsdRelease.value >= env.openbsdRelease.value
    requires yyyymm' <= yyyymm
    ensures OpenbsdPrereq(env', yyyymm')
  {
  }

  /** Two different OpenBSD release dates are told apart by some threshold. */
  lemma OpenbsdPrereqSeparates(env: Env, env': Env)
    requires env.openbsdMarker.Some? && env.openbsdRelease.Some?
    requires env'.openbsdMarker.Some? && env'.openbsdRelease.Some?
    requires env.openbsdRelease != env'.openbsdRelease
    ensures exists yyyymm :: OpenbsdPrereq(env, yyyymm) != OpenbsdPrereq(env', yyyymm)
  {
    var release, release' := env.openbsdRelease.value, env'.openbsdRelease.value;
    if release > release' {
      assert OpenbsdPrereq(env, release) && !OpenbsdPrereq(env', release);
    } else {
      assert OpenbsdPrereq(env', release') && !OpenbsdPrereq(env, release');
    }
  }

  // --------------------------------------------------------------- NetBSD

  /** The NetBSD threshold `maj*100000000 + min*1000000` (the rrpp00 tail is zero). */
  function NetbsdEncode(maj: int, min: int): int {
    maj * 100000000 + min * 1000000
  }

  /** BUILD2_AUTOCONF_NETBSD_PREREQ(maj, min): __NetBSD_Version__ is at least the threshold. */
  function NetbsdPrereq(env: Env, maj: int, min: int): (r: bool)
    ensures r ==> env.netbsdMarker.Some? && env.netbsdVersion.Some?
  {
    env.netbsdMarker.Some? && env.netbsdVersion.Some? &&
    env.netbsdVersion.value >= NetbsdEncode(maj, min)
  }

  /** For a native MMmmrrpp00 value the rrpp00 tail never changes the answer. */
  lemma NetbsdPrereqIgnoresTail(env: Env, major: int, minor: int, tail: int, maj: int, min: int)
    requires env.netbsdMarker.Some?
    requires env.netbsdVersion == Some(major * 100000000 + minor * 1000000 + tail)
    requires 0 <= minor < 100 && 0 <= tail < 1000000 && 0 <= min < 100
    ensures NetbsdPrereq(env, maj, min) <==> LexGe(major, minor, maj, min)
  {
    FieldCompare(major, minor, tail, maj, min, 100, 1000000);
  }

  /** Raising __NetBSD_Version__ or lowering the threshold never turns the predicate false. */
  lemma NetbsdPrereqMonotone(env: Env, env': Env, maj: int, min: int, maj': int, min': int)
    requires NetbsdPrereq(env, maj, min)
    requires env'.netbsdMarker.Some? && env'.netbsdVersion.Some?
    requires env'.netbsdVersion.value >= env.netbsdVersion.value
    requires NetbsdEncode(maj', min') <= NetbsdEncode(maj, min)
    ensures NetbsdPrereq(env', maj', min')
  {
  }

  /** Two NetBSD versions with different MMmm fields are told apart by some threshold. */
  lemma NetbsdPrereqSeparates(env: Env, env': Env, major: int, minor: int, tail: int,
                              major': int, minor': int, tail': int)
    requires env.netbsdMarker.Some? && env.netbsdVersion == Some(major * 100000000 + minor * 1000000 + tail)
    requires env'.netbsdMarker.Some? && env'.netbsdVersion == Some(major' * 100000000 + minor' * 1000000 + tail')
    requires 0 <= minor < 100 && 0 <= tail < 1000000 && 0 <= minor' < 100 && 0 <= tail' < 1000000
    requires (major, minor) != (major', minor')
    ensures exists maj, min :: 0 <= min < 100 && NetbsdPrereq(env, maj, min) != NetbsdPrereq(env', maj, min)
  {
    if LexGe(major, minor, major', minor') {
      assert NetbsdPrereq(env, major, minor) && !NetbsdPrereq(env', major, minor);
    } else {
      assert NetbsdPrereq(env', major', minor') && !NetbsdPrereq(env, major', minor');
    }
  }

  // --------------------------------------------------------------- Mac OS

  /**
   * The threshold in the format of the current deployment target: `MMm0`
   * up to 10.9 (current value at most 1090), `MMmmpp` from 10.10 on.
   */
  function MacosEncode(current: int, maj: int, min: int): int {
    if current <= 1090 then maj * 100 + min * 10 else maj * 10000 + min * 100
  }

  /** BUILD2_AUTOCONF_MACOS_PREREQ(maj, min): the deployment target is at least the threshold. */
  function MacosPrereq(env: Env, maj: int, min: int): (r: bool)
    requires LibcVersionOk(env)
    ensures r ==> env.apple && env.mach
  {
    env.apple && env.mach &&
    env.macosMinRequired.value >= MacosEncode(env.macosMinRequired.value, maj, min)
  }

  /** Mac OS version major.minor.patch as Apple's headers write __MAC_OS_X_VERSION_MIN_REQUIRED. */
  function MacosNativeVersion(major: int, minor: int, patch: int): int {
    if LexGe(10, 9, major, minor) then major * 100 + minor * 10
    else major * 10000 + minor * 100 + patch
  }

  /** A version the native format can hold: one minor digit up to 10.9, two minor and patch digits after. */
  predicate MacosRepresentable(major: int, minor: int, patch: int) {
    0 <= major && 0 <= minor && 0 <= patch &&
    if LexGe(10, 9, major, minor) then minor < 10 else minor < 100 && patch < 100
  }

  /**
   * Across the format switch, the predicate orders Mac OS versions
   * lexicographically, for thresholds with a minor below 100 that either
   * have a single-digit minor or name a release 10.x or later.
   */
  lemma MacosPrereqFollowsVersionOrder(env: Env, major: int, minor: int, patch: int, maj: int, min: int)
    requires env.apple && env.mach
    requires MacosRepresentable(major, minor, patch)
    requires env.macosMinRequired == Some(MacosNativeVersion(major, minor, patch))
    requires 0 <= min < 100 && (min < 10 || maj >= 10)
    ensures MacosPrereq(env, maj, min) <==> LexGe(major, minor, maj, min)
  {
    var v := MacosNativeVersion(major, minor, patch);
    if LexGe(10, 9, major, minor) {
      assert v <= 1090;
      if min < 10 {
        FieldCompare(major, minor, 0, maj, min, 10, 10);
      } else {
        assert maj * 100 + min * 10 >= 1100;
      }
    } else {
      assert v > 1090;
      FieldCompare(major, minor, patch, maj, min, 100, 100);
    }
  }

  /**
   * Two Mac OS deployment targets in native format with different (major,
   * minor) are told apart by some threshold, whichever side of the format
   * switch each one is on.
   */
  lemma MacosPrereqSeparates(env: Env, env': Env, major: int, minor: int, patch: int,
                             major': int, minor': int, patch': int)
    requires env.apple && env.mach && env'.apple && env'.mach
    requires MacosRepresentable(major, minor, patch) && MacosRepresentable(major', minor', patch')
    requires env.macosMinRequired == Some(MacosNativeVersion(major, minor, patch))
    requires env'.macosMinRequired == Some(MacosNativeVersion(major', minor', patch'))
    requires (major, minor) != (major', minor')
    ensures exists maj, min :: MacosPrereq(env, maj, min) != MacosPrereq(env', maj, min)
  {
    if LexGe(major, minor, major', minor') {
      MacosPrereqFollowsVersionOrder(env, major, minor, patch, major, minor);
      MacosPrereqFollowsVersionOrder(env', major', minor', patch', major, minor);
      assert MacosPrereq(env, major, minor) != MacosPrereq(env', major, minor);
    } else {
      MacosPrereqFollowsVersionOrder(env, major, minor, patch, major', minor');
      MacosPrereqFollowsVersionOrder(env', major', minor', patch', major', minor');
      assert MacosPrereq(env, major', minor') != MacosPrereq(env', major', minor');
    }
  }

  /** The two sides of the format switch: 10.9 as 1090 and 10.10 as 101000. */
  lemma MacosFormatBoundaries()
    ensures MacosPrereq(Bare.(apple := true, mach := true, macosMinRequired := Some(1090)), 10, 9)
    ensures !MacosPrereq(Bare.(apple := true, mach := true, macosMinRequired := Some(1090)), 10, 10)
    ensures MacosPrereq(Bare.(apple := true, mach := true, macosMinRequired := Some(101000)), 10, 10)
    ensures !MacosPrereq(Bare.(apple := true, mach := true, macosMinRequired := Some(101000)), 10, 11)
  {
  }

  /** Within one format, raising the target or lowering the threshold never turns the predicate false. */
  lemma MacosPrereqMonotone(env: Env, env': Env, maj: int, min: int, maj': int, min': int)
    requires LibcVersionOk(env) && LibcVersionOk(env')
    requires MacosPrereq(env, maj, min)
    requires env'.apple && env'.mach
    requires env.macosMinRequired.value <= env'.macosMinRequired.value
    requires (env.macosMinRequired.value <= 1090) == (env'.macosMinRequired.value <= 1090)
    requires MacosEncode(env.macosMinRequired.value, maj', min') <= MacosEncode(env.macosMinRequired.value, maj, min)
    ensures MacosPrereq(env', maj', min')
  {
  }

  /** Raw values across the switch are not monotone: 1090 passes (10, 0) but 1091 does not. */
  lemma MacosNotMonotoneAcrossFormats()
    ensures MacosPrereq(Bare.(apple := true, mach := true, macosMinRequired := Some(1090)), 10, 0)
    ensures !MacosPrereq(Bare.(apple := true, mach := true, macosMinRequired := Some(1091)), 10, 0)
  {
  }

  // ------------------------------------------------------ all predicates

  /**
   * On an environment with no recognised platform the header goes through
   * and every predicate is false for every threshold.
   */
  lemma UnrecognisedPlatformIsSilent(env: Env)
    requires NoRecognisedPlatform(env)
    ensures LibcVersionOk(env)
    ensures forall maj, min :: !GlibcPrereq(env, maj, min)
    ensures forall maj, min :: !FreebsdPrereq(env, maj, min)
    ensures forall yyyymm :: !OpenbsdPrereq(env, yyyymm)
    ensures forall maj, min :: !NetbsdPrereq(env, maj, min)
    ensures forall maj, min :: !MacosPrereq(env, maj, min)
  {
  }
}
