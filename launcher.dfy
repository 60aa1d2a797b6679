/** The launcher run.py: from one test file name it derives the parameter
    file, the geometry file and the test name, names a fresh results
    directory after the test and the current time, checks that everything
    it needs exists, creates the directory, sets the OpenMP thread count and
    starts the solver under MPI. */
module Launcher {
  import opened Text

  const GEOM: string := "Geom.kzr"
  const PARA: string := "Para.kzr"

  // ---------------------------------------------------------------------
  // File names, lines 17-19
  // ---------------------------------------------------------------------

  /** geofile: every "Para.kzr" replaced by "Geom.kzr". It is as long as
      the argument, and an argument naming no parameter file is kept. */
  function GeoFile(arg: string): (g: string)
    ensures |g| == |arg|
    ensures !Contains(arg, PARA) ==> g == arg
  {
    if Contains(arg, PARA) then ReplaceAll(arg, PARA, GEOM)
    else ReplaceAbsent(arg, PARA, GEOM); ReplaceAll(arg, PARA, GEOM)
  }

  /** parfile: every "Geom.kzr" replaced by "Para.kzr". It is as long as
      the argument, and an argument naming no geometry file is kept. */
  function ParFile(arg: string): (q: string)
    ensures |q| == |arg|
    ensures !Contains(arg, GEOM) ==> q == arg
  {
    if Contains(arg, GEOM) then ReplaceAll(arg, GEOM, PARA)
    else ReplaceAbsent(arg, GEOM, PARA); ReplaceAll(arg, GEOM, PARA)
  }

  /** testname: both suffixes removed, then every leading and trailing '_'.
      It never begins or ends with '_'. */
  function TestName(arg: string): (t: string)
    ensures |t| > 0 ==> t[0] != '_' && t[|t| - 1] != '_'
  {
    Strip(ReplaceAll(ReplaceAll(arg, GEOM, ""), PARA, ""), '_')
  }

  /** Replacing the pattern p in p itself gives the replacement. */
  lemma ReplaceWhole(p: string, r: string)
    requires |p| > 0
    ensures ReplaceAll(p, p, r) == r
  {
    assert p[..|p|] == p;
    assert p[|p|..] == [];
    assert ReplaceAll([], p, r) == [];
    assert r + [] == r;
  }

  /** An occurrence of p starting in x or at its '_' would lie in x or
      cover the '_'; neither can happen when p has no '_' and x holds no p. */
  lemma NoMatchBeforeTail(x: string, y: string, p: string, i: int)
    requires '_' !in p && !Contains(x, p) && 0 <= i <= |x|
    ensures !StartsAt(x + "_" + y, p, i)
  {
    var s := x + "_" + y;
    if i + |p| <= |x| {
      assert s[i..i + |p|] == x[i..i + |p|];
      assert !StartsAt(x, p, i);
    } else if i + |p| <= |s| {
      assert s[i..i + |p|][|x| - i] == s[|x|] == '_';
      assert p[|x| - i] != '_';
    }
  }

  /** After the '_' there is room only for q itself. */
  lemma NoMatchInTail(x: string, p: string, q: string, i: int)
    requires |p| == |q| && p != q && |x| < i
    ensures !StartsAt(x + "_" + q, p, i)
  {
    var s := x + "_" + q;
    if i == |x| + 1 {
      assert s[i..] == q;
    }
  }

  lemma SuffixesHaveNoUnderscore()
    ensures '_' !in GEOM && '_' !in PARA && |GEOM| == |PARA| == 8 && GEOM != PARA
  {
    assert GEOM[0] != PARA[0];
  }

  /** In x + "_" + q, where x holds neither suffix and q is one of them,
      the other suffix p never occurs and q occurs only at the end. */
  lemma OnlyAtEnd(x: string, p: string, q: string)
    requires (p == GEOM && q == PARA) || (p == PARA && q == GEOM)
    requires !Contains(x, p) && !Contains(x, q)
    ensures forall i :: 0 <= i < |x + "_"| ==> !StartsAt(x + "_" + q, q, i)
    ensures !Contains(x + "_" + q, p)
  {
    SuffixesHaveNoUnderscore();
    var s := x + "_" + q;
    forall i | 0 <= i < |x + "_"| ensures !StartsAt(s, q, i) {
      NoMatchBeforeTail(x, q, q, i);
    }
    forall i | 0 <= i <= |s| ensures !StartsAt(s, p, i) {
      if i <= |x| {
        NoMatchBeforeTail(x, q, p, i);
      } else {
        NoMatchInTail(x, p, q, i);
      }
    }
  }

  /** For a geometry file "X_Geom.kzr" where X holds neither suffix, parfile
      is "X_Para.kzr", geofile is the argument itself, and testname is X
      (when X neither begins nor ends with '_'). */
  lemma GeometryArgument(x: string)
    requires !Contains(x, GEOM) && !Contains(x, PARA)
    requires |x| > 0 ==> x[0] != '_' && x[|x| - 1] != '_'
    ensures ParFile(x + "_" + GEOM) == x + "_" + PARA
    ensures GeoFile(x + "_" + GEOM) == x + "_" + GEOM
    ensures TestName(x + "_" + GEOM) == x
  {
    var arg := x + "_" + GEOM;
    OnlyAtEnd(x, PARA, GEOM);
    ReplaceAllAfterPrefix(x + "_", GEOM, GEOM, PARA);
    ReplaceWhole(GEOM, PARA);
    ReplaceAbsent(arg, PARA, GEOM);
    ReplaceAllAfterPrefix(x + "_", GEOM, GEOM, "");
    ReplaceWhole(GEOM, "");
    assert ReplaceAll(arg, GEOM, "") == x + "_";
    assert !Contains(x + "_", PARA) by {
      SuffixesHaveNoUnderscore();
      forall i | 0 <= i <= |x + "_"| ensures !StartsAt(x + "_", PARA, i) {
        if i <= |x| {
          NoMatchBeforeTail(x, [], PARA, i);
          assert x + "_" + [] == x + "_";
        }
      }
    }
    ReplaceAbsent(x + "_", PARA, "");
    StripUnderscore(x);
  }

  /** A trailing '_' after a name without outer '_' is stripped. */
  lemma StripUnderscore(x: string)
    requires |x| > 0 ==> x[0] != '_' && x[|x| - 1] != '_'
    ensures Strip(x + "_", '_') == x
  {
    var s := x + "_";
    if x == [] {
      assert TrimLeft(s, '_') == TrimLeft([], '_') == [];
    } else {
      assert TrimLeft(s, '_') == s;
      assert s[..|s| - 1] == x;
      assert TrimRight(s, '_') == TrimRight(x, '_') == x;
    }
  }

  /** For a parameter file "X_Para.kzr" where X holds neither suffix,
      geofile is "X_Geom.kzr" and parfile is the argument itself. */
  lemma ParameterArgument(x: string)
    requires !Contains(x, GEOM) && !Contains(x, PARA)
    ensures GeoFile(x + "_" + PARA) == x + "_" + GEOM
    ensures ParFile(x + "_" + PARA) == x + "_" + PARA
  {
    var arg := x + "_" + PARA;
    OnlyAtEnd(x, GEOM, PARA);
    ReplaceAllAfterPrefix(x + "_", PARA, PARA, GEOM);
    ReplaceWhole(PARA, GEOM);
    ReplaceAbsent(arg, GEOM, PARA);
  }

  // ---------------------------------------------------------------------
  // The results directory name, line 29
  // ---------------------------------------------------------------------

  /** The host: whether platform.uname() mentions "Windows". */
  datatype Platform = Windows | Other

  /** os.sep. */
  function Sep(platform: Platform): char
  {
    match platform
    case Windows => '\\'
    case Other => '/'
  }

  /** datetime.now(), as far as strftime reads it. */
  datatype DateTime = DateTime(year: int, month: int, day: int, hour: int, minute: int, second: int)

  predicate ValidDateTime(t: DateTime)
  {
    1 <= t.year <= 9999 && 1 <= t.month <= 12 && 1 <= t.day <= 31
    && 0 <= t.hour < 24 && 0 <= t.minute < 60 && 0 <= t.second < 60
  }

  /** A two-digit strftime field: "%02d". */
  function TwoDigits(n: int): (s: string)
    requires 0 <= n < 100
    ensures |s| == 2 && IsDigits(s) && ParseDigits(s) == n
  {
    var s := [DigitChar(n / 10), DigitChar(n % 10)];
    assert DigitValue(s[0]) == n / 10 && DigitValue(s[1]) == n % 10;
    assert s[..1] == [s[0]] && [s[0]][..0] == [];
    assert ParseDigits([s[0]]) == n / 10;
    s
  }

  lemma DigitsConcat(a: string, b: string)
    requires IsDigits(a) && IsDigits(b)
    ensures IsDigits(a + b)
  {
    forall i | 0 <= i < |a + b| ensures '0' <= (a + b)[i] <= '9' {
      if i >= |a| {
        assert (a + b)[i] == b[i - |a|];
      }
    }
  }

  /** "%y%m%d": six decimal digits. */
  function DatePart(t: DateTime): (r: string)
    requires ValidDateTime(t)
    ensures |r| == 6 && IsDigits(r)
  {
    var y, mo, d := TwoDigits(t.year % 100), TwoDigits(t.month), TwoDigits(t.day);
    DigitsConcat(y, mo);
    DigitsConcat(y + mo, d);
    y + mo + d
  }

  /** "%H%M%S": six decimal digits. */
  function TimePart(t: DateTime): (r: string)
    requires ValidDateTime(t)
    ensures |r| == 6 && IsDigits(r)
  {
    var h, mi, se := TwoDigits(t.hour), TwoDigits(t.minute), TwoDigits(t.second);
    DigitsConcat(h, mi);
    DigitsConcat(h + mi, se);
    h + mi + se
  }

  /** strftime("-%y%m%d-%H%M%S"). */
  function Stamp(t: DateTime): (s: string)
    requires ValidDateTime(t)
    ensures |s| == 14
  {
    "-" + DatePart(t) + "-" + TimePart(t)
  }

  /** The stamp is a '-', the six date digits, a '-' and the six time
      digits. */
  lemma StampLayout(t: DateTime)
    requires ValidDateTime(t)
    ensures var s := Stamp(t);
            s[0] == '-' && s[7] == '-' && s[1..7] == DatePart(t) && s[8..] == TimePart(t)
  {
    var date, time := DatePart(t), TimePart(t);
    var s := "-" + date + "-" + time;
    assert s[1..7] == date;
    assert s[8..] == time;
  }

  /** The stamp reads back as the time: year modulo 100, month, day, hour,
      minute and second, two decimal digits each. */
  lemma StampRoundTrip(t: DateTime)
    requires ValidDateTime(t)
    ensures var s := Stamp(t);
            ParseDigits(s[1..3]) == t.year % 100 && ParseDigits(s[3..5]) == t.month
            && ParseDigits(s[5..7]) == t.day && ParseDigits(s[8..10]) == t.hour
            && ParseDigits(s[10..12]) == t.minute && ParseDigits(s[12..14]) == t.second
  {
    StampLayout(t);
    var s, date, time := Stamp(t), DatePart(t), TimePart(t);
    assert s[1..3] == date[..2];
    assert s[3..5] == date[2..4];
    assert s[5..7] == date[4..];
    assert s[8..10] == time[..2];
    assert s[10..12] == time[2..4];
    assert s[12..14] == time[4..];
    DateFields(t);
    TimeFields(t);
  }

  lemma DateFields(t: DateTime)
    requires ValidDateTime(t)
    ensures DatePart(t)[..2] == TwoDigits(t.year % 100) && DatePart(t)[2..4] == TwoDigits(t.month)
    ensures DatePart(t)[4..] == TwoDigits(t.day)
  {
    var y, mo, d := TwoDigits(t.year % 100), TwoDigits(t.month), TwoDigits(t.day);
    assert (y + mo + d)[..2] == y && (y + mo + d)[2..4] == mo && (y + mo + d)[4..] == d;
  }

  lemma TimeFields(t: DateTime)
    requires ValidDateTime(t)
    ensures TimePart(t)[..2] == TwoDigits(t.hour) && TimePart(t)[2..4] == TwoDigits(t.minute)
    ensures TimePart(t)[4..] == TwoDigits(t.second)
  {
    var h, mi, se := TwoDigits(t.hour), TwoDigits(t.minute), TwoDigits(t.second);
    assert (h + mi + se)[..2] == h && (h + mi + se)[2..4] == mi && (h + mi + se)[4..] == se;
  }

  /** resdirname: the test name with every os.sep replaced by '_', then
      the time stamp. It holds no separator and ends with the stamp. */
  function ResDirName(testname: string, platform: Platform, now: DateTime): (name: string)
    requires ValidDateTime(now)
    ensures |name| >= 14 && name[|name| - 14..] == Stamp(now)
    ensures Sep(platform) !in name
  {
    var sep := Sep(platform);
    var cleaned := ReplaceAll(testname, [sep], "_");
    ReplaceCharRemoves(testname, sep, "_");
    var stamp := Stamp(now);
    StampLayout(now);
    assert sep !in stamp by {
      forall i | 0 <= i < 14 ensures stamp[i] != sep {
        if 1 <= i < 7 {
          assert stamp[i] == DatePart(now)[i - 1];
        } else if 8 <= i {
          assert stamp[i] == TimePart(now)[i - 8];
        }
      }
    }
    assert (cleaned + stamp)[|cleaned + stamp| - 14..] == stamp;
    cleaned + stamp
  }

  // ---------------------------------------------------------------------
  // Paths, lines 33-52
  // ---------------------------------------------------------------------

  /** A path separator: os.sep, and on Windows also '/'. */
  predicate IsSep(c: char, platform: Platform)
  {
    c == Sep(platform) || (platform == Windows && c == '/')
  }

  /** os.path.join(a, b) for a relative b: a, at most one separator, then
      b; the separator is left out exactly when a is empty or already ends
      with one. */
  function Join(a: string, b: string, platform: Platform): (p: string)
    ensures p == a + b || p == a + [Sep(platform)] + b
    ensures p == a + [Sep(platform)] + b <==> |a| > 0 && !IsSep(a[|a| - 1], platform)
  {
    if |a| == 0 || IsSep(a[|a| - 1], platform) then a + b else a + [Sep(platform)] + b
  }

  /** The pieces os.path.split returns. */
  datatype PathParts = PathParts(head: string, tail: string)

  /** The position of the last separator in s, or -1. */
  function LastSep(s: string, platform: Platform): (k: int)
    ensures -1 <= k < |s|
    ensures k >= 0 ==> IsSep(s[k], platform)
    ensures forall j :: k < j < |s| ==> !IsSep(s[j], platform)
  {
    if |s| == 0 then -1
    else if IsSep(s[|s| - 1], platform) then |s| - 1
    else LastSep(s[..|s| - 1], platform)
  }

  /** s without its trailing separators. */
  function TrimSeps(s: string, platform: Platform): (t: string)
    ensures |t| <= |s| && t == s[..|t|]
    ensures |t| > 0 ==> !IsSep(t[|t| - 1], platform)
    ensures forall i :: |t| <= i < |s| ==> IsSep(s[i], platform)
  {
    if |s| > 0 && IsSep(s[|s| - 1], platform) then TrimSeps(s[..|s| - 1], platform) else s
  }

  /** os.path.split(p): the tail is what follows the last separator; the
      head is what precedes it, without trailing separators unless it is
      made of separators only. The tail holds no separator, the head is a
      prefix of p, and only separators lie between the two. */
  function SplitPath(p: string, platform: Platform): (parts: PathParts)
    ensures forall i :: 0 <= i < |parts.tail| ==> !IsSep(parts.tail[i], platform)
    ensures |parts.head| + |parts.tail| <= |p|
    ensures p[..|parts.head|] == parts.head && p[|p| - |parts.tail|..] == parts.tail
    ensures forall i :: |parts.head| <= i < |p| - |parts.tail| ==> IsSep(p[i], platform)
  {
    var k := LastSep(p, platform);
    var h := p[..k + 1];
    var trimmed := TrimSeps(h, platform);
    PathParts(if |trimmed| == 0 then h else trimmed, p[k + 1..])
  }

  /** The last separator of a + [c] + b, when b holds none, is the one
      between them. */
  lemma {:induction false} LastSepBefore(a: string, c: char, b: string, platform: Platform)
    requires IsSep(c, platform)
    requires forall i :: 0 <= i < |b| ==> !IsSep(b[i], platform)
    ensures LastSep(a + [c] + b, platform) == |a|
    decreases |b|
  {
    var s := a + [c] + b;
    if |b| == 0 {
      assert s[|s| - 1] == c;
    } else {
      var b' := b[..|b| - 1];
      assert s[..|s| - 1] == a + [c] + b';
      assert s[|s| - 1] == b[|b| - 1];
      LastSepBefore(a, c, b', platform);
    }
  }

  /** os.path.split undoes os.path.join: for a head that does not end with
      a separator and a tail that holds none, splitting the joined path
      gives both back. */
  lemma JoinThenSplit(a: string, b: string, platform: Platform)
    requires |a| == 0 || !IsSep(a[|a| - 1], platform)
    requires forall i :: 0 <= i < |b| ==> !IsSep(b[i], platform)
    ensures SplitPath(Join(a, b, platform), platform) == PathParts(a, b)
  {
    var p := Join(a, b, platform);
    if |a| == 0 {
      assert p == b;
    } else {
      assert p == a + [Sep(platform)] + b;
      LastSepBefore(a, Sep(platform), b, platform);
      var h := p[..|a| + 1];
      assert h == a + [Sep(platform)];
      assert h[..|h| - 1] == a;
      assert TrimSeps(h, platform) == TrimSeps(a, platform);
      assert p[|a| + 1..] == b;
    }
  }

  /** builddir: "build" in the script's directory; os.path.split gives that
      directory and "build" back. */
  function BuildDir(thisdir: string, platform: Platform): (b: string)
    ensures (|thisdir| == 0 || !IsSep(thisdir[|thisdir| - 1], platform)) ==>
              SplitPath(b, platform) == PathParts(thisdir, "build")
  {
    if |thisdir| == 0 || !IsSep(thisdir[|thisdir| - 1], platform) then
      JoinThenSplit(thisdir, "build", platform); Join(thisdir, "build", platform)
    else Join(thisdir, "build", platform)
  }

  /** exefile: sph.exe in builddir's Release directory on Windows, sph in
      builddir elsewhere. */
  function ExeFile(builddir: string, platform: Platform): (exe: string)
    ensures platform == Windows ==>
              SplitPath(exe, platform) == PathParts(Join(builddir, "Release", platform), "sph.exe")
    ensures platform == Other && |builddir| > 0 && !IsSep(builddir[|builddir| - 1], platform) ==>
              SplitPath(exe, platform) == PathParts(builddir, "sph")
  {
    match platform
    case Windows =>
      var release := Join(builddir, "Release", platform);
      assert release[|release| - 1] == 'e';
      JoinThenSplit(release, "sph.exe", platform);
      Join(release, "sph.exe", platform)
    case Other =>
      if |builddir| > 0 && !IsSep(builddir[|builddir| - 1], platform) then
        JoinThenSplit(builddir, "sph", platform); Join(builddir, "sph", platform)
      else Join(builddir, "sph", platform)
  }

  /** The executable run.py looks for, spelled out: thisdir/build/sph, or
      thisdir\build\Release\sph.exe on Windows (no leading directory when
      thisdir is empty). */
  lemma ExeFilePath(thisdir: string, platform: Platform)
    requires |thisdir| > 0 ==> !IsSep(thisdir[|thisdir| - 1], platform)
    ensures ExeFile(BuildDir(thisdir, platform), platform)
            == (if |thisdir| == 0 then "" else thisdir + [Sep(platform)])
               + (if platform == Windows then "build\\Release\\sph.exe" else "build/sph")
  {
    var d := if |thisdir| == 0 then "" else thisdir + [Sep(platform)];
    var b := BuildDir(thisdir, platform);
    assert b == d + "build";
    JoinAfterName(d, "build", "sph", platform);
    match platform
    case Windows =>
      JoinAfterName(d, "build", "Release", platform);
      var release := d + "build" + "\\" + "Release";
      JoinAfterName(d + "build" + "\\", "Release", "sph.exe", platform);
      assert release == (d + "build" + "\\") + "Release";
      WindowsExeLiteral(d);
    case Other =>
      OtherExeLiteral(d);
  }

  /** Joining after a path that ends with a name puts one separator in. */
  lemma JoinAfterName(d: string, name: string, b: string, platform: Platform)
    requires name != [] && !IsSep(name[|name| - 1], platform)
    ensures Join(d + name, b, platform) == d + name + [Sep(platform)] + b
  {
    assert (d + name)[|d + name| - 1] == name[|name| - 1];
  }

  lemma WindowsExeLiteral(d: string)
    ensures d + "build" + "\\" + "Release" + "\\" + "sph.exe" == d + "build\\Release\\sph.exe"
  {
    assert "build" + "\\" + "Release" + "\\" + "sph.exe" == "build\\Release\\sph.exe";
  }

  lemma OtherExeLiteral(d: string)
    ensures d + "build" + "/" + "sph" == d + "build/sph"
  {
    assert "build" + "/" + "sph" == "build/sph";
  }

  /** resdir: Results/resdirname; for a name without separators
      os.path.split gives "Results" and the name back. */
  function ResDir(resdirname: string, platform: Platform): (r: string)
    ensures (forall i :: 0 <= i < |resdirname| ==> !IsSep(resdirname[i], platform)) ==>
              SplitPath(r, platform) == PathParts("Results", resdirname)
  {
    if forall i :: 0 <= i < |resdirname| ==> !IsSep(resdirname[i], platform) then
      JoinThenSplit("Results", resdirname, platform); Join("Results", resdirname, platform)
    else Join("Results", resdirname, platform)
  }

  // ---------------------------------------------------------------------
  // The command line, lines 62-68
  // ---------------------------------------------------------------------

  /** mpiexe: the MPI launcher prefix, which is its words joined by single
      spaces. */
  function MpiExe(platform: Platform, nproc: int, nthread: int): (m: string)
    ensures m == Unwords(MpiWords(platform, nproc, nthread), ' ')
  {
    match platform
    case Windows =>
      WindowsWords(DecimalString(nproc));
      "mpiexec -n " + DecimalString(nproc)
    case Other =>
      OtherWords(DecimalString(nproc), DecimalString(nthread));
      "mpirun -np " + DecimalString(nproc) + " -map-by node:PE=" + DecimalString(nthread)
      + ":OVERSUBSCRIBE --bind-to core:overload-allowed"
  }

  /** cmd: '%s %s %s %s %s' of the prefix, the executable, the two input
      files and the results file prefix resdirname/p: the five joined by
      single spaces. */
  function Cmd(mpiexe: string, exefile: string, parfile: string, geofile: string, resfile: string): (c: string)
    ensures c == Unwords([mpiexe, exefile, parfile, geofile, resfile], ' ')
  {
    FourWords(exefile, parfile, geofile, resfile);
    UnwordsCons(mpiexe, [exefile, parfile, geofile, resfile], ' ');
    assert [mpiexe, exefile, parfile, geofile, resfile] == [mpiexe] + [exefile, parfile, geofile, resfile];
    RegroupFive(mpiexe, exefile, parfile, geofile, resfile);
    mpiexe + " " + exefile + " " + parfile + " " + geofile + " " + resfile
  }

  /** The words the shell sees in the prefix. */
  function MpiWords(platform: Platform, nproc: int, nthread: int): seq<string>
  {
    match platform
    case Windows => ["mpiexec", "-n", DecimalString(nproc)]
    case Other =>
      ["mpirun", "-np", DecimalString(nproc), "-map-by", "node:PE=" + DecimalString(nthread) + ":OVERSUBSCRIBE",
       "--bind-to", "core:overload-allowed"]
  }

  /** The first position of c in s. */
  function FirstIndex(s: string, c: char): (i: nat)
    requires c in s
    ensures i < |s| && s[i] == c && c !in s[..i]
  {
    if s[0] == c then 0
    else
      var j := FirstIndex(s[1..], c);
      assert s[..j + 1] == [s[0]] + s[1..][..j];
      j + 1
  }

  /** The words of s separated by c (str.split(c)). */
  function Split(s: string, c: char): (ws: seq<string>)
    ensures |ws| >= 1
    decreases |s|
  {
    if c !in s then [s]
    else
      var i := FirstIndex(s, c);
      [s[..i]] + Split(s[i + 1..], c)
  }

  /** The words joined by single copies of c. */
  function Unwords(ws: seq<string>, c: char): string
    requires |ws| >= 1
  {
    if |ws| == 1 then ws[0] else ws[0] + [c] + Unwords(ws[1..], c)
  }

  /** Splitting at the first separator. */
  lemma SplitFirst(a: string, b: string, c: char)
    requires c !in a
    ensures Split(a + [c] + b, c) == [a] + Split(b, c)
  {
    var s := a + [c] + b;
    assert s[|a|] == c;
    var i := FirstIndex(s, c);
    assert s[..i] == a;
    assert s[i + 1..] == b;
  }

  /** Split undoes Unwords when no word holds the separator. */
  lemma {:induction false} SplitUnwords(ws: seq<string>, c: char)
    requires |ws| >= 1 && forall k :: 0 <= k < |ws| ==> c !in ws[k]
    ensures Split(Unwords(ws, c), c) == ws
    decreases |ws|
  {
    if |ws| == 1 {
    } else {
      SplitUnwords(ws[1..], c);
      SplitFirst(ws[0], Unwords(ws[1..], c), c);
      assert ws == [ws[0]] + ws[1..];
    }
  }

  /** A decimal number holds no space. */
  lemma DecimalHasNoSpace(n: int)
    ensures ' ' !in DecimalString(n)
  {
    var s := DecimalString(n);
    var d := if n < 0 then Digits(-n) else Digits(n);
    assert n < 0 ==> s == "-" + d;
    assert n >= 0 ==> s == d;
    forall i | 0 <= i < |s| ensures s[i] != ' ' {
      if n < 0 && i > 0 {
        assert s[i] == d[i - 1];
      }
    }
  }

  /** One more word in front. */
  lemma UnwordsCons(w: string, rest: seq<string>, c: char)
    requires |rest| >= 1
    ensures Unwords([w] + rest, c) == w + [c] + Unwords(rest, c)
  {
    assert ([w] + rest)[1..] == rest;
  }

  /** The Windows prefix is its three words joined by spaces. */
  lemma WindowsWords(n: string)
    ensures "mpiexec -n " + n == Unwords(["mpiexec", "-n", n], ' ')
  {
    UnwordsCons("-n", [n], ' ');
    assert ["-n", n] == ["-n"] + [n];
    UnwordsCons("mpiexec", ["-n", n], ' ');
    assert ["mpiexec", "-n", n] == ["mpiexec"] + ["-n", n];
    assert "mpiexec -n " == "mpiexec" + " " + "-n" + " ";
  }

  /** Regrouping the other hosts' format string around its two numbers. */
  lemma Regroup(a: string, b: string, c: string, n: string, j: string,
                w0: string, w1: string, w3: string, p0: string, p1: string, w5: string, w6: string)
    requires a == w0 + " " + w1 + " " && b == " " + w3 + " " + p0 && c == p1 + " " + w5 + " " + w6
    ensures a + n + b + j + c == w0 + " " + (w1 + " " + (n + " " + (w3 + " " + ((p0 + j + p1) + " " + (w5 + " " + w6)))))
  {
  }

  lemma OtherLiteral(n: string, j: string)
    ensures "mpirun -np " + n + " -map-by node:PE=" + j + ":OVERSUBSCRIBE --bind-to core:overload-allowed"
         == "mpirun" + " " + ("-np" + " " + (n + " " + ("-map-by" + " " + (("node:PE=" + j + ":OVERSUBSCRIBE")
            + " " + ("--bind-to" + " " + "core:overload-allowed")))))
  {
    OtherPieces();
    Regroup("mpirun -np ", " -map-by node:PE=", ":OVERSUBSCRIBE --bind-to core:overload-allowed", n, j,
            "mpirun", "-np", "-map-by", "node:PE=", ":OVERSUBSCRIBE", "--bind-to", "core:overload-allowed");
  }

  /** The three constant pieces of the other hosts' format string, cut at
      the spaces. */
  lemma OtherPieces()
    ensures "mpirun -np " == "mpirun" + " " + "-np" + " "
    ensures " -map-by node:PE=" == " " + "-map-by" + " " + "node:PE="
    ensures ":OVERSUBSCRIBE --bind-to core:overload-allowed"
            == ":OVERSUBSCRIBE" + " " + "--bind-to" + " " + "core:overload-allowed"
  {
    MpirunPiece();
    MapByPiece();
    BindToPiece();
    TailPiece();
  }

  lemma MpirunPiece()
    ensures "mpirun -np " == "mpirun" + " " + "-np" + " "
  {
  }

  lemma MapByPiece()
    ensures " -map-by node:PE=" == " " + "-map-by" + " " + "node:PE="
  {
  }

  lemma BindToPiece()
    ensures ":OVERSUBSCRIBE --bind-to " == ":OVERSUBSCRIBE" + " " + "--bind-to" + " "
  {
  }

  lemma TailPiece()
    ensures ":OVERSUBSCRIBE --bind-to core:overload-allowed" == ":OVERSUBSCRIBE --bind-to " + "core:overload-allowed"
  {
  }

  /** The other hosts' prefix is its seven words joined by spaces. */
  lemma OtherWords(n: string, j: string)
    ensures "mpirun -np " + n + " -map-by node:PE=" + j + ":OVERSUBSCRIBE --bind-to core:overload-allowed"
         == Unwords(["mpirun", "-np", n, "-map-by", "node:PE=" + j + ":OVERSUBSCRIBE", "--bind-to", "core:overload-allowed"], ' ')
  {
    var pe := "node:PE=" + j + ":OVERSUBSCRIBE";
    var ws := ["mpirun", "-np", n, "-map-by", pe, "--bind-to", "core:overload-allowed"];
    assert ws[5..] == ["--bind-to"] + ["core:overload-allowed"];
    UnwordsCons("--bind-to", ["core:overload-allowed"], ' ');
    assert ws[4..] == [pe] + ws[5..];
    UnwordsCons(pe, ws[5..], ' ');
    assert ws[3..] == ["-map-by"] + ws[4..];
    UnwordsCons("-map-by", ws[4..], ' ');
    assert ws[2..] == [n] + ws[3..];
    UnwordsCons(n, ws[3..], ' ');
    assert ws[1..] == ["-np"] + ws[2..];
    UnwordsCons("-np", ws[2..], ' ');
    assert ws == ["mpirun"] + ws[1..];
    UnwordsCons("mpirun", ws[1..], ' ');
    OtherLiteral(n, j);
  }

  /** What the shell runs: the MPI launcher with the process count (and on
      other hosts the thread count per process), then the executable, the
      parameter file, the geometry file and the results prefix, each as one
      word when none of them holds a space. */
  lemma CmdWords(platform: Platform, nproc: int, nthread: int,
                 exefile: string, parfile: string, geofile: string, resfile: string)
    requires ' ' !in exefile && ' ' !in parfile && ' ' !in geofile && ' ' !in resfile
    ensures Split(Cmd(MpiExe(platform, nproc, nthread), exefile, parfile, geofile, resfile), ' ')
            == MpiWords(platform, nproc, nthread) + [exefile, parfile, geofile, resfile]
  {
    var mw := MpiWords(platform, nproc, nthread);
    var ws := mw + [exefile, parfile, geofile, resfile];
    MpiWordsHaveNoSpace(platform, nproc, nthread);
    CmdIsWords(mw, exefile, parfile, geofile, resfile);
    assert forall k :: 0 <= k < |ws| ==> ' ' !in ws[k] by {
      forall k | 0 <= k < |ws| ensures ' ' !in ws[k] {
        if k < |mw| {
          assert ws[k] == mw[k];
        }
      }
    }
    SplitUnwords(ws, ' ');
  }

  /** No word of the prefix holds a space. */
  lemma MpiWordsHaveNoSpace(platform: Platform, nproc: int, nthread: int)
    ensures forall k :: 0 <= k < |MpiWords(platform, nproc, nthread)| ==> ' ' !in MpiWords(platform, nproc, nthread)[k]
  {
    DecimalHasNoSpace(nproc);
    if platform == Other {
      var j := DecimalString(nthread);
      DecimalHasNoSpace(nthread);
      var pe := "node:PE=" + j + ":OVERSUBSCRIBE";
      assert ' ' !in pe by {
        forall i | 0 <= i < |pe| ensures pe[i] != ' ' {
          if 8 <= i < 8 + |j| {
            assert pe[i] == j[i - 8];
          }
        }
      }
    }
  }

  /** cmd is the prefix's words followed by the four arguments, joined by
      spaces. */
  lemma CmdIsWords(mw: seq<string>, exefile: string, parfile: string, geofile: string, resfile: string)
    requires |mw| >= 1
    ensures Cmd(Unwords(mw, ' '), exefile, parfile, geofile, resfile)
            == Unwords(mw + [exefile, parfile, geofile, resfile], ' ')
  {
    var rest := [exefile, parfile, geofile, resfile];
    var pre := Unwords(mw, ' ');
    UnwordsCons(pre, rest, ' ');
    assert [pre, exefile, parfile, geofile, resfile] == [pre] + rest;
    UnwordsAppend(mw, rest, ' ');
  }

  lemma FourWords(exefile: string, parfile: string, geofile: string, resfile: string)
    ensures Unwords([exefile, parfile, geofile, resfile], ' ')
            == exefile + [' '] + (parfile + [' '] + (geofile + [' '] + resfile))
  {
    UnwordsCons(geofile, [resfile], ' ');
    assert [geofile, resfile] == [geofile] + [resfile];
    UnwordsCons(parfile, [geofile, resfile], ' ');
    assert [parfile, geofile, resfile] == [parfile] + [geofile, resfile];
    UnwordsCons(exefile, [parfile, geofile, resfile], ' ');
    assert [exefile, parfile, geofile, resfile] == [exefile] + [parfile, geofile, resfile];
  }

  lemma RegroupFive(a: string, b: string, c: string, d: string, e: string)
    ensures a + " " + b + " " + c + " " + d + " " + e == a + [' '] + (b + [' '] + (c + [' '] + (d + [' '] + e)))
  {
  }

  /** Joining two lists of words is joining their joins. */
  lemma {:induction false} UnwordsAppend(a: seq<string>, b: seq<string>, c: char)
    requires |a| >= 1 && |b| >= 1
    ensures Unwords(a + b, c) == Unwords(a, c) + [c] + Unwords(b, c)
    decreases |a|
  {
    if |a| == 1 {
      assert (a + b)[1..] == b;
    } else {
      UnwordsAppend(a[1..], b, c);
      assert (a + b)[1..] == a[1..] + b;
    }
  }

  // ---------------------------------------------------------------------
  // The effects, lines 33-71
  // ---------------------------------------------------------------------

  /** Why the launcher stops: no test file on the command line (the index
      args.files[0] fails), a path that must exist and does not, a results
      directory that already exists, or os.mkdir failing (no Results
      directory, or a file in the way). */
  datatype Failure = NoTestFile | NotFound(path: string) | AlreadyExists(path: string) | MkdirFailed(path: string)

  datatype Outcome = Raised(failure: Failure) | Launched(cmd: string)

  datatype Option<T> = None | Some(value: T)

  /** The part of the machine the launcher sees: its directories and files,
      the environment, and the shell commands it has started. */
  class Host {
    var dirs: set<string>
    var files: set<string>
    var env: map<string, string>
    var commands: seq<string>

    constructor (dirs: set<string>, files: set<string>, env: map<string, string>)
      ensures this.dirs == dirs && this.files == files && this.env == env && commands == []
    {
      this.dirs, this.files, this.env := dirs, files, env;
      commands := [];
    }
  }

  /** The checks of lines 35-56, in order: the first that fails, or None
      when the results directory can be made. os.mkdir fails when the
      Results directory is missing or a file already has the name. */
  function FirstFailure(dirs: set<string>, files: set<string>, builddir: string, exefile: string,
                        parfile: string, geofile: string, resdir: string): (f: Option<Failure>)
    ensures builddir !in dirs ==> f == Some(NotFound(builddir))
    ensures builddir in dirs && exefile !in files ==> f == Some(NotFound(exefile))
    ensures builddir in dirs && exefile in files && parfile !in files ==> f == Some(NotFound(parfile))
    ensures builddir in dirs && exefile in files && parfile in files && geofile !in files ==>
              f == Some(NotFound(geofile))
    ensures builddir in dirs && exefile in files && parfile in files && geofile in files && resdir in dirs ==>
              f == Some(AlreadyExists(resdir))
    ensures f == None <==>
              builddir in dirs && exefile in files && parfile in files && geofile in files
              && resdir !in dirs && "Results" in dirs && resdir !in files
    ensures f.Some? ==> !f.value.NoTestFile?
  {
    if builddir !in dirs then Some(NotFound(builddir))
    else if exefile !in files then Some(NotFound(exefile))
    else if parfile !in files then Some(NotFound(parfile))
    else if geofile !in files then Some(NotFound(geofile))
    else if resdir in dirs then Some(AlreadyExists(resdir))
    else if "Results" !in dirs || resdir in files then Some(MkdirFailed(resdir))
    else None
  }

  /** The whole of run.py after argument parsing. No test file raises at
      once. Otherwise the existence checks run in the order of
      FirstFailure, and any failure stops the run before the directory is
      made, the environment changes or anything is started. On success
      resdir is made, OMP_NUM_THREADS is set to the thread count on every
      platform, and the command is started once. */
  method Run(host: Host, testFiles: seq<string>, nproc: int, nthread: int,
             script: string, platform: Platform, now: DateTime)
    returns (outcome: Outcome)
    requires ValidDateTime(now)
    modifies host
    ensures host.files == old(host.files)
    ensures outcome.Raised? ==>
              host.dirs == old(host.dirs) && host.env == old(host.env) && host.commands == old(host.commands)
    ensures testFiles == [] <==> outcome == Raised(NoTestFile)
    ensures testFiles != [] ==>
              var arg := testFiles[0];
              var builddir := BuildDir(SplitPath(script, platform).head, platform);
              var exefile := ExeFile(builddir, platform);
              var resdirname := ResDirName(TestName(arg), platform, now);
              var resdir := ResDir(resdirname, platform);
              var failure := FirstFailure(old(host.dirs), old(host.files), builddir, exefile,
                                          ParFile(arg), GeoFile(arg), resdir);
              (failure.Some? ==> outcome == Raised(failure.value))
              && (failure.None? ==>
                    host.dirs == old(host.dirs) + {resdir}
                    && host.env == old(host.env)["OMP_NUM_THREADS" := DecimalString(nthread)]
                    && outcome == Launched(Cmd(MpiExe(platform, nproc, nthread), exefile, ParFile(arg), GeoFile(arg),
                                               Join(resdirname, "p", platform)))
                    && host.commands == old(host.commands) + [outcome.cmd])
  {
    if testFiles == [] {
      return Raised(NoTestFile);
    }
    var geofile := GeoFile(testFiles[0]);
    var parfile := ParFile(testFiles[0]);
    var testname := TestName(testFiles[0]);
    var resdirname := ResDirName(testname, platform, now);
    var resfilename := "p";

    var thisdir := SplitPath(script, platform).head;
    var builddir := BuildDir(thisdir, platform);
    var exefile := ExeFile(builddir, platform);
    var resdir := ResDir(resdirname, platform);
    var mpiexe := MpiExe(platform, nproc, nthread);
    var cmd := Cmd(mpiexe, exefile, parfile, geofile, Join(resdirname, resfilename, platform));
    outcome := Launch(host, builddir, exefile, parfile, geofile, resdir, DecimalString(nthread), cmd);
  }

  /** Lines 35-71 once the names are known: the checks, then mkdir, the
      environment and the command. */
  method Launch(host: Host, builddir: string, exefile: string, parfile: string, geofile: string,
                resdir: string, threads: string, cmd: string)
    returns (outcome: Outcome)
    modifies host
    ensures host.files == old(host.files)
    ensures var failure := FirstFailure(old(host.dirs), old(host.files), builddir, exefile, parfile, geofile, resdir);
            (failure.Some? ==>
               outcome == Raised(failure.value)
               && host.dirs == old(host.dirs) && host.env == old(host.env) && host.commands == old(host.commands))
            && (failure.None? ==>
                  outcome == Launched(cmd)
                  && host.dirs == old(host.dirs) + {resdir}
                  && host.env == old(host.env)["OMP_NUM_THREADS" := threads]
                  && host.commands == old(host.commands) + [cmd])
  {
    var failure := FirstFailure(host.dirs, host.files, builddir, exefile, parfile, geofile, resdir);
    if failure.Some? {
      return Raised(failure.value);
    }
    host.dirs := host.dirs + {resdir};
    host.env := host.env["OMP_NUM_THREADS" := threads];
    host.commands := host.commands + [cmd];
    return Launched(cmd);
  }
}
