# libbuild2-autoconf platform version checks, in Dafny

This project models three check headers of libbuild2-autoconf, the autoconf
emulation of the build2 build system:

- `LIBC_VERSION` defines five version predicates:
  `BUILD2_AUTOCONF_GLIBC_PREREQ(maj, min)`, `..._FREEBSD_PREREQ(maj, min)`,
  `..._OPENBSD_PREREQ(yyyymm)`, `..._NETBSD_PREREQ(maj, min)` and
  `..._MACOS_PREREQ(maj, min)`. Each one encodes a threshold in its
  platform's native version format and compares the current version macro
  against it with `>=`. Each is always defined, and it is `0` when its
  guarding macros are absent. On Apple+Mach, a missing
  `__MAC_OS_X_VERSION_MIN_REQUIRED` stops the header with `#error`.
- `HAVE_FUTIMES` and `HAVE_INOTIFY` are feature flags. Each header first
  `#undef`s its flag, then defines it to `1` only when a formula over those
  predicates holds.

The preprocessor environment is the datatype `LibcVersion.Env`. For each
macro the checks read, it holds `Some(value)` when the macro is defined and
`None` when it is not. `__APPLE__` and `__MACH__` are booleans. Every check
is a pure function of the environment:

- the predicates return `bool`;
- `CheckLibcVersion` returns `Pass`, or `Fail(MacMinRequiredNotDefined)` for
  the `#error`;
- `CheckHaveFutimes` and `CheckHaveInotify` return either the flag macro as it
  stands after the header (`Some(1)` when defined, `None` when undefined) or
  the `LIBC_VERSION` error they depend on.

The module `Digits` holds the arithmetic behind the encodings. Comparing
packed `(major, minor)` integers is the same as comparing the pairs
lexicographically, as long as each field stays within its digits. A tail
below the minor unit never decides the comparison.

Where the model follows the code rather than the prose around it:

- The doc comments of the predicates (`LIBC_VERSION.h` lines 98, 118-119,
  130-131, 141-142 and 153-154) say "given version >= platform version". The code computes
  "current platform value >= threshold", and the model does the same.
- A flag whose formula is false is left undefined, not defined to `0`.
- The Mac OS disjunct of `HAVE_FUTIMES` tests `__APPLE__ && __MACH__`. That
  covers every Apple Mach target, not only Mac OS.
- The guards of the five predicates are independent. Nothing in the code
  picks a single platform family, so several predicates can hold in one
  environment.

## Model

| member | source | states |
|---|---|---|
| `LibcVersion.CheckLibcVersion` | libbuild2-autoconf/libbuild2/autoconf/checks/LIBC_VERSION.h:156-159 | the header fails, with the missing-macro error, exactly when `__APPLE__` and `__MACH__` are defined and `__MAC_OS_X_VERSION_MIN_REQUIRED` is not |
| `LibcVersion.GlibcPrereq` | libbuild2-autoconf/libbuild2/autoconf/checks/LIBC_VERSION.h:105-114 | the glibc predicate is false unless both `__GLIBC__` and `__GLIBC_MINOR__` are defined |
| `LibcVersion.GlibcPrereqIsLexicographic` | libbuild2-autoconf/libbuild2/autoconf/checks/LIBC_VERSION.h:101-111 | when both minors are below 65536, `(__GLIBC__ << 16) + __GLIBC_MINOR__ >= (maj << 16) + min` holds iff `(major, minor) >= (maj, min)` lexicographically |
| `LibcVersion.GlibcMinorCarries` | libbuild2-autoconf/libbuild2/autoconf/checks/LIBC_VERSION.h:109-110 | a minor of 65536 carries into the major field: glibc "2.65536" passes the 3.0 threshold although (2, 65536) < (3, 0) |
| `LibcVersion.GlibcPrereqMonotone` | libbuild2-autoconf/libbuild2/autoconf/checks/LIBC_VERSION.h:109-110 | raising the packed current version or lowering the packed threshold never turns a true glibc predicate false |
| `LibcVersion.GlibcPrereqSeparates` | libbuild2-autoconf/libbuild2/autoconf/checks/LIBC_VERSION.h:109-110 | any two distinct glibc versions with minors below 65536 are told apart by some threshold `(maj, min)` |
| `LibcVersion.FreebsdPrereq` | libbuild2-autoconf/libbuild2/autoconf/checks/LIBC_VERSION.h:121-126 | the FreeBSD predicate is false unless both `__FreeBSD__` and `__FreeBSD_version` are defined |
| `LibcVersion.FreebsdPrereqIgnoresTail` | libbuild2-autoconf/libbuild2/autoconf/checks/LIBC_VERSION.h:121-123 | for `__FreeBSD_version = MM*100000 + mm*1000 + XXX` with `XXX < 1000` and minors below 100, the predicate holds iff `(MM, mm) >= (maj, min)`; the XXX tail never matters |
| `LibcVersion.FreebsdPrereqMonotone` | libbuild2-autoconf/libbuild2/autoconf/checks/LIBC_VERSION.h:122-123 | raising `__FreeBSD_version` or lowering the threshold `maj*100000 + min*1000` never turns a true predicate false |
| `LibcVersion.FreebsdPrereqSeparates` | libbuild2-autoconf/libbuild2/autoconf/checks/LIBC_VERSION.h:49-53 | two `__FreeBSD_version` values whose MMmm fields differ are told apart by some threshold with a minor below 100 |
| `LibcVersion.OpenbsdPrereq` | libbuild2-autoconf/libbuild2/autoconf/checks/LIBC_VERSION.h:133-137 | the OpenBSD predicate is false unless both `__OpenBSD__` and `OpenBSD` are defined |
| `LibcVersion.OpenbsdPrereqFollowsReleaseDate` | libbuild2-autoconf/libbuild2/autoconf/checks/LIBC_VERSION.h:133-134 | for an `OpenBSD` value YYYYMM, the untransformed comparison holds iff the release (year, month) is at or after the threshold's (year, month) |
| `LibcVersion.OpenbsdSevenZero` | libbuild2-autoconf/libbuild2/autoconf/checks/LIBC_VERSION.h:58-62 | OpenBSD 7.0 (202110) passes the 199610 threshold and fails 202204 |
| `LibcVersion.OpenbsdPrereqMonotone` | libbuild2-autoconf/libbuild2/autoconf/checks/LIBC_VERSION.h:133-134 | raising `OpenBSD` or lowering `yyyymm` never turns a true predicate false |
| `LibcVersion.OpenbsdPrereqSeparates` | libbuild2-autoconf/libbuild2/autoconf/checks/LIBC_VERSION.h:133-134 | any two different `OpenBSD` release dates are told apart by some threshold |
| `LibcVersion.NetbsdPrereq` | libbuild2-autoconf/libbuild2/autoconf/checks/LIBC_VERSION.h:144-149 | the NetBSD predicate is false unless both `__NetBSD__` and `__NetBSD_Version__` are defined |
| `LibcVersion.NetbsdPrereqIgnoresTail` | libbuild2-autoconf/libbuild2/autoconf/checks/LIBC_VERSION.h:144-146 | for `__NetBSD_Version__ = MM*10^8 + mm*10^6 + t` with `t < 10^6` and minors below 100, the predicate holds iff `(MM, mm) >= (maj, min)`; the rrpp00 tail never matters |
| `LibcVersion.NetbsdPrereqMonotone` | libbuild2-autoconf/libbuild2/autoconf/checks/LIBC_VERSION.h:145-146 | raising `__NetBSD_Version__` or lowering the threshold `maj*10^8 + min*10^6` never turns a true predicate false |
| `LibcVersion.NetbsdPrereqSeparates` | libbuild2-autoconf/libbuild2/autoconf/checks/LIBC_VERSION.h:68-73 | two `__NetBSD_Version__` values whose MMmm fields differ are told apart by some threshold with a minor below 100 |
| `LibcVersion.MacosPrereq` | libbuild2-autoconf/libbuild2/autoconf/checks/LIBC_VERSION.h:156-169 | the Mac OS predicate is false unless `__APPLE__` and `__MACH__` are both defined, and it is available only when the header passed |
| `LibcVersion.MacosPrereqFollowsVersionOrder` | libbuild2-autoconf/libbuild2/autoconf/checks/LIBC_VERSION.h:160-166 | when the deployment target is written in Apple's native format (`MMm0` up to 10.9, `MMmmpp` from 10.10), the predicate holds iff the target version is lexicographically at least `(maj, min)`, on both sides of the 1090 format switch |
| `LibcVersion.MacosFormatBoundaries` | libbuild2-autoconf/libbuild2/autoconf/checks/LIBC_VERSION.h:160-166 | at 1090, (10, 9) holds and (10, 10) does not; at 101000, (10, 10) holds and (10, 11) does not |
| `LibcVersion.MacosPrereqSeparates` | libbuild2-autoconf/libbuild2/autoconf/checks/LIBC_VERSION.h:75-81 | two native-format deployment targets with different (major, minor) are told apart by some threshold, on either side of the format switch |
| `LibcVersion.MacosPrereqMonotone` | libbuild2-autoconf/libbuild2/autoconf/checks/LIBC_VERSION.h:160-166 | within one encoding format, raising the deployment target or lowering the encoded threshold never turns a true predicate false |
| `LibcVersion.MacosNotMonotoneAcrossFormats` | libbuild2-autoconf/libbuild2/autoconf/checks/LIBC_VERSION.h:160-166 | raw values are not monotone across the switch: 1090 passes (10, 0) and 1091 does not |
| `LibcVersion.UnrecognisedPlatformIsSilent` | libbuild2-autoconf/libbuild2/autoconf/checks/LIBC_VERSION.h:15-22 | with no platform identification macro defined, the header passes and every predicate is false for every threshold |
| `FutimesCheck.HaveFutimes` | libbuild2-autoconf/libbuild2/autoconf/checks/HAVE_FUTIMES.h:9-13 | the condition holds on every Apple+Mach environment and fails on every environment with no recognised platform |
| `FutimesCheck.CheckHaveFutimes` | libbuild2-autoconf/libbuild2/autoconf/checks/HAVE_FUTIMES.h:3-15 | fails exactly when LIBC_VERSION fails; otherwise `HAVE_FUTIMES` ends up defined, with value 1, iff the condition holds |
| `FutimesCheck.HaveFutimesIff` | libbuild2-autoconf/libbuild2/autoconf/checks/HAVE_FUTIMES.h:9-14 | the condition holds iff glibc packs to at least 131075 (2.3), `__FreeBSD_version >= 300000`, `OpenBSD >= 199610`, `__NetBSD_Version__ >= 102000000`, or `__APPLE__` and `__MACH__` are defined |
| `FutimesCheck.CheckHaveFutimesIgnoresPrior` | libbuild2-autoconf/libbuild2/autoconf/checks/HAVE_FUTIMES.h:3 | `#undef` discards any earlier definition, so the result depends on the environment only; this holds by construction, since the check function never reads the prior definition |
| `FutimesCheck.FutimesOnApple` | libbuild2-autoconf/libbuild2/autoconf/checks/HAVE_FUTIMES.h:13 | Apple+Mach defines the flag for every deployment target; Apple without Mach does not |
| `FutimesCheck.FutimesOnAppleWithoutTarget` | libbuild2-autoconf/libbuild2/autoconf/checks/LIBC_VERSION.h:156-158 | on every Apple+Mach environment without a deployment target, whatever the prior definition, the error is reported and no flag is produced |
| `FutimesCheck.FutimesOnGlibc` | libbuild2-autoconf/libbuild2/autoconf/checks/HAVE_FUTIMES.h:9 | on a glibc-only environment with a minor below 65536, the flag is set iff the glibc version is at least 2.3 |
| `FutimesCheck.FutimesGlibcBoundary` | libbuild2-autoconf/libbuild2/autoconf/checks/HAVE_FUTIMES.h:9 | glibc 2.3 sets the flag whatever else is defined; glibc 2.2 alone does not |
| `FutimesCheck.FutimesFreebsdBoundary` | libbuild2-autoconf/libbuild2/autoconf/checks/HAVE_FUTIMES.h:10 | `__FreeBSD_version` 300000 sets the flag; 299999 alone does not |
| `FutimesCheck.FutimesOpenbsdBoundary` | libbuild2-autoconf/libbuild2/autoconf/checks/HAVE_FUTIMES.h:11 | `OpenBSD` 199610 sets the flag; any smaller value alone does not |
| `FutimesCheck.FutimesNetbsdBoundary` | libbuild2-autoconf/libbuild2/autoconf/checks/HAVE_FUTIMES.h:12 | NetBSD 1.2 (102000000) sets the flag; 1.1 (101000000) does not |
| `InotifyCheck.HaveInotify` | libbuild2-autoconf/libbuild2/autoconf/checks/HAVE_INOTIFY.h:7 | the condition fails unless both glibc macros are defined |
| `InotifyCheck.CheckHaveInotify` | libbuild2-autoconf/libbuild2/autoconf/checks/HAVE_INOTIFY.h:3-9 | fails exactly when LIBC_VERSION fails; otherwise `HAVE_INOTIFY` ends up defined, with value 1, iff the condition holds |
| `InotifyCheck.InotifyFollowsGlibcVersion` | libbuild2-autoconf/libbuild2/autoconf/checks/HAVE_INOTIFY.h:7 | with a glibc minor below 65536, the flag is set iff the glibc version is at least 2.4 |
| `InotifyCheck.InotifyGlibcBoundary` | libbuild2-autoconf/libbuild2/autoconf/checks/HAVE_INOTIFY.h:5-7 | glibc 2.4 sets the flag and glibc 2.3 does not, whatever else is defined |
| `InotifyCheck.InotifyNeedsGlibc` | libbuild2-autoconf/libbuild2/autoconf/checks/LIBC_VERSION.h:113 | every passing environment without both glibc macros (FreeBSD, OpenBSD, NetBSD, Apple or no platform) leaves the flag undefined, whatever the prior definition |
| `InotifyCheck.InotifyImpliesFutimes` | libbuild2-autoconf/libbuild2/autoconf/checks/HAVE_INOTIFY.h:7 | whenever `HAVE_INOTIFY` is set, `HAVE_FUTIMES` is set too |
| `InotifyCheck.CheckHaveInotifyIgnoresPrior` | libbuild2-autoconf/libbuild2/autoconf/checks/HAVE_INOTIFY.h:3 | `#undef` discards any earlier definition, so the result depends on the environment only; this holds by construction, since the check function never reads the prior definition |

## Left out

- Header selection (`<features.h>`, `<osreldate.h>`, `<sys/param.h>`, `<Availability.h>`, `LIBC_VERSION.h` lines 83-94) is inclusion mechanics. The macro values those headers provide are inputs in `Env`.
- glibc's own `__GLIBC_PREREQ` is a foreign macro, and its definition is not part of this model. When it is defined (line 107), it is assumed to compute the fallback formula of line 110.
- C preprocessor integer width and overflow are not modelled; integers are unbounded. `x << 16` is modelled as `x * 65536`, and C's undefined behaviour for negative operands is not modelled.
- The values of `__FreeBSD__`, `__OpenBSD__` and `__NetBSD__` are carried in `Env`, but only whether they are defined matters, as in the code.
- The build2 mechanism behind the `// NAME : DEPENDENCY` first lines is not modelled. Only the dependency itself is: the flag conditions require that `LIBC_VERSION` passed, and `CheckHaveFutimes`/`CheckHaveInotify` propagate its error.
- LibcVersion.GlibcPrereqIsLexicographic: stated only for minors below 65536, because larger minors carry into the major field (see `GlibcMinorCarries`).
- LibcVersion.MacosPrereqFollowsVersionOrder: stated for thresholds with a minor below 100 that have either a single-digit minor or a major of at least 10. In the `MMm0` format, a threshold such as (9, 25) overlaps the major field.
