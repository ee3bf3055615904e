/** Entry names: decimal rendering, base name and extension, and the search for a free name. */
module Names {
  import opened Protocol

  // ----- decimal rendering -----

  function Digit(d: nat): char
    requires d < 10
  {
    '0' + d as char
  }

  function Digits(n: nat): string {
    if n < 10 then [Digit(n)] else Digits(n / 10) + [Digit(n % 10)]
  }

  /** fmt's %d. */
  function Decimal(n: int): string {
    if n < 0 then "-" + Digits(-n) else Digits(n)
  }

  lemma {:induction false} DigitsAreDigits(n: nat)
    ensures |Digits(n)| > 0
    ensures forall c :: c in Digits(n) ==> '0' <= c <= '9'
  {
    if n >= 10 {
      DigitsAreDigits(n / 10);
    }
  }

  lemma {:induction false} DigitsInjective(m: nat, n: nat)
    requires Digits(m) == Digits(n)
    ensures m == n
  {
    DigitsAreDigits(m / 10);
    DigitsAreDigits(n / 10);
    var s, t := Digits(m), Digits(n);
    assert s[|s| - 1] == t[|t| - 1];
    if m >= 10 && n >= 10 {
      assert s[..|s| - 1] == Digits(m / 10);
      assert t[..|t| - 1] == Digits(n / 10);
      DigitsInjective(m / 10, n / 10);
    }
  }

  lemma DecimalInjective(m: int, n: int)
    requires Decimal(m) == Decimal(n)
    ensures m == n
  {
    DigitsAreDigits(if m < 0 then -m else m);
    DigitsAreDigits(if n < 0 then -n else n);
    assert Digits(if m < 0 then -m else m)[0] in Digits(if m < 0 then -m else m);
    assert Digits(if n < 0 then -n else n)[0] in Digits(if n < 0 then -n else n);
    assert Decimal(m)[0] == Decimal(n)[0];
    if m < 0 && n < 0 {
      assert Decimal(m)[1..] == Digits(-m) && Decimal(n)[1..] == Digits(-n);
      DigitsInjective(-m, -n);
    } else if m >= 0 && n >= 0 {
      DigitsInjective(m, n);
    }
  }

  /** The number that a decimal text stands for. */
  function Value(s: string): int {
    if s == "" then 0 else 10 * Value(s[..|s| - 1]) + (s[|s| - 1] as int - '0' as int)
  }

  /** Rendering is decimal: reading the text back gives the number, and there is no leading zero. */
  lemma {:induction false} DigitsReadBack(n: nat)
    ensures Value(Digits(n)) == n
    ensures n > 0 ==> Digits(n)[0] != '0'
  {
    var s := Digits(n);
    if n < 10 {
      assert s[..0] == "";
    } else {
      DigitsReadBack(n / 10);
      assert s[..|s| - 1] == Digits(n / 10);
    }
  }

  lemma DecimalReadsBack(n: int)
    ensures if n < 0 then Decimal(n)[0] == '-' && Value(Decimal(n)[1..]) == -n else Value(Decimal(n)) == n
  {
    DigitsReadBack(if n < 0 then -n else n);
    if n < 0 {
      assert Decimal(n)[1..] == Digits(-n);
    }
  }

  // ----- filepath.Base and filepath.Ext -----

  function TrimSlashes(s: string): string {
    if s != "" && s[|s| - 1] == '/' then TrimSlashes(s[..|s| - 1]) else s
  }

  function AfterLastSlash(s: string): string {
    if s == "" then "" else
    if s[|s| - 1] == '/' then "" else AfterLastSlash(s[..|s| - 1]) + [s[|s| - 1]]
  }

  function Base(path: string): string {
    if path == "" then "."
    else var last := AfterLastSlash(TrimSlashes(path)); if last == "" then "/" else last
  }

  lemma {:induction false} AfterTheSlash(dir: string, name: string)
    requires '/' !in name
    ensures AfterLastSlash(dir + "/" + name) == name
    ensures AfterLastSlash(name) == name
  {
    var path := dir + "/" + name;
    if name != "" {
      var shorter := name[..|name| - 1];
      AfterTheSlash(dir, shorter);
      assert path[..|path| - 1] == dir + "/" + shorter;
      assert name == shorter + [name[|name| - 1]];
    }
  }

  /** A name without a slash is its own base name. */
  lemma BaseOfPlainName(name: string)
    requires name != "" && '/' !in name
    ensures Base(name) == name
  {
    AfterTheSlash("", name);
  }

  /** Directories are dropped, whatever they are. */
  lemma BaseOfPath(dir: string, name: string)
    requires name != "" && '/' !in name
    ensures Base(dir + "/" + name) == name
  {
    var path := dir + "/" + name;
    assert path[|path| - 1] == name[|name| - 1];
    AfterTheSlash(dir, name);
  }

  /** Slashes at the end do not matter. */
  lemma BaseOfDirectory(path: string)
    requires path != ""
    ensures Base(path + "/") == Base(path)
  {
    assert (path + "/")[..|path|] == path;
  }

  predicate AllSlashes(s: string) {
    forall i :: 0 <= i < |s| ==> s[i] == '/'
  }

  lemma {:induction false} TrimmedIsEmpty(s: string)
    ensures TrimSlashes(s) == "" <==> AllSlashes(s)
    ensures TrimSlashes(s) != "" ==> TrimSlashes(s)[|TrimSlashes(s)| - 1] != '/'
  {
    if s != "" {
      var shorter := s[..|s| - 1];
      assert AllSlashes(s) <==> AllSlashes(shorter) && s[|s| - 1] == '/';
      TrimmedIsEmpty(shorter);
    }
  }

  lemma {:induction false} NoSlashAfter(s: string)
    ensures '/' !in AfterLastSlash(s)
    ensures s != "" && s[|s| - 1] != '/' ==> AfterLastSlash(s) != ""
  {
    if s != "" {
      NoSlashAfter(s[..|s| - 1]);
    }
  }

  /** A base name never leads into a directory: it has no slash, unless the path is made of slashes. */
  lemma BaseHasNoSlash(path: string)
    ensures Base(path) != ""
    ensures if path != "" && AllSlashes(path) then Base(path) == "/" else '/' !in Base(path)
  {
    TrimmedIsEmpty(path);
    NoSlashAfter(TrimSlashes(path));
  }

  /** The suffix that starts at the last dot of the last path element, or "". */
  function Ext(name: string): (ext: string)
    ensures |ext| <= |name| && name[|name| - |ext|..] == ext
  {
    if name == "" || name[|name| - 1] == '/' then ""
    else if name[|name| - 1] == '.' then name[|name| - 1..]
    else
      var e := Ext(name[..|name| - 1]);
      if e == "" then "" else e + [name[|name| - 1]]
  }

  /** The extension begins at the last dot. */
  lemma {:induction false} ExtOfDotted(stem: string, tail: string)
    requires '.' !in tail && '/' !in tail
    ensures Ext(stem + "." + tail) == "." + tail
  {
    var name := stem + "." + tail;
    if tail != "" {
      var shorter := tail[..|tail| - 1];
      ExtOfDotted(stem, shorter);
      assert name[..|name| - 1] == stem + "." + shorter;
      assert "." + tail == ("." + shorter) + [tail[|tail| - 1]];
    }
  }

  /** A name without a dot has no extension. */
  lemma {:induction false} ExtOfPlain(name: string)
    requires '.' !in name
    ensures Ext(name) == ""
  {
    if name != "" {
      ExtOfPlain(name[..|name| - 1]);
    }
  }

  function Stem(name: string): string {
    name[..|name| - |Ext(name)|]
  }

  // ----- the search for a free name -----

  /** The k-th name that the search tries: the base name itself, then "stem (k)ext". */
  function Candidate(fileName: string, k: nat): string {
    var clean := Base(fileName);
    if k == 0 then clean else Stem(clean) + " (" + Digits(k) + (")" + Ext(clean))
  }

  lemma MiddlesAgree(before: string, s: string, t: string, after: string)
    requires before + s + after == before + t + after
    ensures s == t
  {
    var u := before + s + after;
    assert u[|before|..|u| - |after|] == s;
    assert u == before + t + after && u[|before|..|u| - |after|] == t;
  }

  lemma CandidateInjective(fileName: string, j: nat, k: nat)
    requires Candidate(fileName, j) == Candidate(fileName, k)
    ensures j == k
  {
    var clean := Base(fileName);
    assert clean == Stem(clean) + Ext(clean);
    if j != 0 && k != 0 {
      MiddlesAgree(Stem(clean) + " (", Digits(j), Digits(k), ")" + Ext(clean));
      DigitsInjective(j, k);
    }
  }

  /** The number goes before the extension: "a.txt" becomes "a (1).txt". */
  lemma CandidateOfDotted(stem: string, tail: string, k: nat)
    requires '/' !in stem && '/' !in tail && '.' !in tail
    ensures Candidate(stem + "." + tail, k) ==
      if k == 0 then stem + "." + tail else stem + " (" + Digits(k) + (")" + ("." + tail))
  {
    var name := stem + "." + tail;
    BaseOfPlainName(name);
    ExtOfDotted(stem, tail);
    assert name == stem + ("." + tail);
    assert Stem(name) == stem;
  }

  lemma CandidateOfPlain(name: string, k: nat)
    requires name != "" && '/' !in name && '.' !in name
    ensures Candidate(name, k) == if k == 0 then name else name + " (" + Digits(k) + ")"
  {
    BaseOfPlainName(name);
    ExtOfPlain(name);
    assert Stem(name) == name && ")" + "" == ")";
  }

  /** Pigeonhole: n distinct candidates inside a directory need n entries. */
  lemma {:induction false} TakenAreBounded(dir: set<string>, fileName: string, n: nat)
    requires forall j: nat :: j < n ==> Candidate(fileName, j) in dir
    ensures n <= |dir|
  {
    if n > 0 {
      var last := Candidate(fileName, n - 1);
      forall j: nat | j < n - 1
        ensures Candidate(fileName, j) in dir - {last}
      {
        if Candidate(fileName, j) == last {
          CandidateInjective(fileName, j, n - 1);
        }
      }
      TakenAreBounded(dir - {last}, fileName, n - 1);
    }
  }

  /** The least index at or above k whose candidate is free. */
  function FirstFree(dir: set<string>, fileName: string, k: nat): (i: nat)
    requires forall j: nat :: j < k ==> Candidate(fileName, j) in dir
    ensures k <= i <= |dir|
    ensures Candidate(fileName, i) !in dir
    ensures forall j: nat :: j < i ==> Candidate(fileName, j) in dir
    decreases |dir| + 1 - k
  {
    TakenAreBounded(dir, fileName, k);
    if Candidate(fileName, k) !in dir then k else
    FirstFree(dir, fileName, k + 1)
  }

  function UniqueName(dir: set<string>, fileName: string): string {
    Candidate(fileName, FirstFree(dir, fileName, 0))
  }

  /** Any free candidate all of whose predecessors are taken is the chosen name. */
  lemma UniqueNameIsFirstFree(dir: set<string>, fileName: string, i: nat)
    requires forall j: nat :: j < i ==> Candidate(fileName, j) in dir
    requires Candidate(fileName, i) !in dir
    ensures UniqueName(dir, fileName) == Candidate(fileName, i)
  {
    var f: nat := FirstFree(dir, fileName, 0);
    assert f < i ==> Candidate(fileName, f) in dir;
    assert i < f ==> Candidate(fileName, i) in dir;
    assert f == i;
  }

  /** A second file of the same name, from whatever directory it comes, gets the number 1. */
  lemma SecondOfName(dir: set<string>, from: string, stem: string, tail: string)
    requires '/' !in stem && '/' !in tail && '.' !in tail
    requires stem + "." + tail in dir && stem + " (1)" + ("." + tail) !in dir
    ensures UniqueName(dir, from + "/" + (stem + "." + tail)) == stem + " (1)" + ("." + tail)
  {
    var name, path := stem + "." + tail, from + "/" + (stem + "." + tail);
    BaseOfPath(from, name);
    BaseOfPlainName(name);
    CandidateOfDotted(stem, tail, 0);
    CandidateOfDotted(stem, tail, 1);
    NumberOne(stem, "." + tail);
    assert Candidate(path, 0) == Candidate(name, 0) && Candidate(path, 1) == Candidate(name, 1);
    UniqueNameIsFirstFree(dir, path, 1);
  }

  lemma NumberOne(stem: string, ext: string)
    ensures stem + " (" + Digits(1) + (")" + ext) == stem + " (1)" + ext
  {
    assert Digits(1) == "1";
    assert " (" + "1" + ")" == " (1)";
    assert stem + " (" + "1" + (")" + ext) == stem + (" (" + "1" + ")") + ext;
  }

  /** One more turn of the search: the name tried next, and the bound that a taken name adds. */
  lemma NextCandidate(dir: set<string>, fileName: string, i: nat)
    requires i > 0 && TakenBefore(dir, fileName, i)
    ensures Candidate(fileName, i) ==
      Stem(Base(fileName)) + " (" + Digits(i) + (")" + Ext(Base(fileName)))
    ensures i <= |dir|
  {
    TakenAreBounded(dir, fileName, i);
  }

  /** Every candidate before i is in the directory. */
  ghost predicate TakenBefore(dir: set<string>, fileName: string, i: nat) {
    forall j: nat :: j < i ==> Candidate(fileName, j) in dir
  }

  lemma TakenOneMore(dir: set<string>, fileName: string, i: nat)
    requires TakenBefore(dir, fileName, i) && Candidate(fileName, i) in dir
    ensures TakenBefore(dir, fileName, i + 1)
  {
  }

  method GetUniquePath(disk: Disk, fileName: string) returns (path: string, ghost probes: nat)
    ensures path == UniqueName(disk.Keys, fileName)
    ensures path !in disk
    ensures 1 <= probes <= |disk| + 1
    ensures path == Candidate(fileName, probes - 1)
    ensures forall j: nat :: j < probes - 1 ==> Candidate(fileName, j) in disk
  {
    var cleanName := Base(fileName);
    var ext := Ext(cleanName);
    var base := cleanName[..|cleanName| - |ext|];
    assert base == Stem(cleanName);
    path := cleanName;
    var i := 1;
    while path in disk
      invariant 1 <= i
      invariant path == Candidate(fileName, i - 1)
      invariant TakenBefore(disk.Keys, fileName, i - 1)
      invariant i - 1 <= |disk.Keys|
      decreases |disk.Keys| + 1 - i
    {
      TakenOneMore(disk.Keys, fileName, i - 1);
      NextCandidate(disk.Keys, fileName, i);
      path := base + " (" + Digits(i) + (")" + ext);
      i := i + 1;
    }
    probes := i;
    UniqueNameIsFirstFree(disk.Keys, fileName, i - 1);
  }
}
