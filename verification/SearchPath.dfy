/** The symbol search path built from the loaded modules (v2/src/get_thread_stack.c:280-339). */
module SearchPath {
  import opened CText
  import opened PropertyForest

  const PATH_SIZE := 32768
  const MAX_PATH := 260
  const BACKSLASH: byte := 92
  const SEMICOLON: byte := 59

  /** strrchr: the index of the last backslash, or -1. */
  function LastBackslash(s: seq<byte>): (i: int)
    ensures -1 <= i < |s|
    ensures 0 <= i ==> s[i] == BACKSLASH
    ensures forall k :: i < k < |s| ==> s[k] != BACKSLASH
  {
    if s == [] then -1
    else if s[|s| - 1] == BACKSLASH then |s| - 1
    else LastBackslash(s[..|s| - 1])
  }

  predicate OccursAt(s: seq<byte>, sub: seq<byte>, i: nat) {
    i + |sub| <= |s| && s[i..i + |sub|] == sub
  }

  /** strstr finds `sub`. */
  predicate Contains(s: seq<byte>, sub: seq<byte>) {
    exists i: nat :: i <= |s| && OccursAt(s, sub, i)
  }

  lemma ContainsMore(s: seq<byte>, sub: seq<byte>, tail: seq<byte>)
    requires Contains(s, sub)
    ensures Contains(s + tail, sub)
  {
    var i: nat :| i <= |s| && OccursAt(s, sub, i);
    assert (s + tail)[i..i + |sub|] == s[i..i + |sub|];
    assert OccursAt(s + tail, sub, i);
  }

  /** The module's directory, if it has one that is not too long. */
  predicate HasDirectory(path: CString) {
    0 <= LastBackslash(path) < MAX_PATH
  }

  function Directory(path: CString): (dir: CString)
    requires HasDirectory(path)
  {
    path[..LastBackslash(path)]
  }

  /** It is what comes before the last backslash, which is among the first 260 characters. */
  lemma DirectoryIs(path: CString, i: nat)
    requires i < |path| && path[i] == '\\' as int && forall k :: i < k < |path| ==> path[k] != '\\' as int
    ensures HasDirectory(path) <==> i < 260
    ensures i < 260 ==> Directory(path) == path[..i]
  {
  }

  lemma NoDirectory(path: CString)
    requires '\\' as int !in path
    ensures !HasDirectory(path)
  {
  }

  /** The path buffer and the recorded length. */
  datatype Path = Path(mem: seq<byte>, len: nat) {
    predicate Valid() {
      |mem| == PATH_SIZE && len < PATH_SIZE
    }
  }

  function Separate(p: Path): (r: Path)
    requires p.Valid()
    ensures r.Valid()
  {
    if 0 < p.len && p.len + 1 < PATH_SIZE then Path(p.mem[p.len := SEMICOLON], p.len + 1) else p
  }

  function Write(p: Path, dir: CString): (r: Path)
    requires p.Valid()
    ensures r.Valid()
  {
    if p.len + |dir| < PATH_SIZE then Path(Overwrite(p.mem, p.len, dir + [0]), p.len + |dir|) else p
  }

  /** What one directory does to the path buffer; the separator goes in before the fit is known. */
  function AddDirectory(p: Path, dir: CString): (r: Path)
    requires p.Valid()
    ensures r.Valid()
  {
    if Contains(AsciiText(p.mem), dir) then p else Write(Separate(p), dir)
  }

  /** The same on the text, when everything fits. */
  function AddText(text: CString, dir: CString): (r: CString) {
    if Contains(text, dir) then text
    else if text == [] then dir
    else text + [SEMICOLON] + dir
  }

  /** The directory is already there, or it fits with its separator. */
  predicate Fits(text: CString, dir: CString) {
    Contains(text, dir) || |AddText(text, dir)| < PATH_SIZE
  }

  /** The buffer is a C string of the recorded length. */
  predicate Holds(p: Path, text: CString) {
    p.Valid() && p.len == |text| && ReadsAs(p.mem, 0, text)
  }

  /** The loop over the modules, in a buffer that happens to hold `initial`. */
  method BuildSearchPath(modules: seq<CString>) returns (p: Path, ghost initial: seq<byte>)
    ensures |initial| == PATH_SIZE && p == PathAfter(initial, modules, |modules|)
    ensures AllFit(modules, |modules|) ==> Holds(p, PathText(modules, |modules|))
  {
    var searchPath := new byte[PATH_SIZE];
    initial := searchPath[..];
    var len := 0;
    searchPath[0] := 0;
    var i := 0;
    while i < |modules|
      invariant 0 <= i <= |modules| && 0 <= len < PATH_SIZE
      invariant Path(searchPath[..], len) == PathAfter(initial, modules, i)
    {
      var lastBackslash := LastBackslash(modules[i]);
      if lastBackslash != -1 {
        var dirLen := lastBackslash;
        if dirLen < MAX_PATH {
          len := AddOne(searchPath, len, modules[i][..dirLen]);
        }
      }
      i := i + 1;
    }
    p := Path(searchPath[..], len);
    if AllFit(modules, |modules|) {
      HoldsWhileFitting(initial, modules, |modules|);
    }
  }

  method AddOne(searchPath: array<byte>, len: nat, dir: CString) returns (newLen: nat)
    requires searchPath.Length == PATH_SIZE && len < PATH_SIZE
    modifies searchPath
    ensures newLen < PATH_SIZE
    ensures Path(searchPath[..], newLen) == AddDirectory(Path(old(searchPath[..]), len), dir)
  {
    newLen := len;
    if !Contains(AsciiText(searchPath[..]), dir) {
      if 0 < newLen && newLen + 1 < PATH_SIZE {
        searchPath[newLen] := SEMICOLON;
        newLen := newLen + 1;
      }
      if newLen + |dir| < PATH_SIZE {
        WriteBytes(searchPath, newLen, dir + [0]);
        newLen := newLen + |dir|;
      }
    }
  }

  /** The path buffer after the first `n` modules, whatever fits. */
  function PathAfter(initial: seq<byte>, modules: seq<CString>, n: nat): (p: Path)
    requires |initial| == PATH_SIZE && n <= |modules|
    ensures p.Valid()
  {
    if n == 0 then Path(initial[0 := 0], 0)
    else
      var p := PathAfter(initial, modules, n - 1);
      if HasDirectory(modules[n - 1]) then AddDirectory(p, Directory(modules[n - 1])) else p
  }

  /** The path after the first `n` modules, if all of them fit. */
  function PathText(modules: seq<CString>, n: nat): (text: CString)
    requires n <= |modules|
  {
    if n == 0 then []
    else if HasDirectory(modules[n - 1]) then AddText(PathText(modules, n - 1), Directory(modules[n - 1]))
    else PathText(modules, n - 1)
  }

  predicate AllFit(modules: seq<CString>, n: nat)
    requires n <= |modules|
  {
    n == 0 ||
    (AllFit(modules, n - 1) &&
     (HasDirectory(modules[n - 1]) ==> Fits(PathText(modules, n - 1), Directory(modules[n - 1]))))
  }

  /** A directory that fits leaves a C string behind. */
  lemma FittingStep(p: Path, text: CString, dir: CString)
    requires Holds(p, text) && Fits(text, dir)
    ensures Holds(AddDirectory(p, dir), AddText(text, dir))
  {
    ReadsAsText(p.mem, 0, text);
    assert p.mem[0..] == p.mem;
    if !Contains(text, dir) {
      var r, t := AddDirectory(p, dir), AddText(text, dir);
      if text == [] {
        assert r.mem[..|t|] == t;
      } else {
        assert r.mem[..|text|] == p.mem[..|text|] == text;
        assert r.mem[..|t|] == text + [SEMICOLON] + dir;
      }
    }
  }

  /** While all directories fit, the buffer is the path text. */
  lemma {:induction false} HoldsWhileFitting(initial: seq<byte>, modules: seq<CString>, n: nat)
    requires |initial| == PATH_SIZE && n <= |modules| && AllFit(modules, n)
    ensures Holds(PathAfter(initial, modules, n), PathText(modules, n))
  {
    if 0 < n {
      HoldsWhileFitting(initial, modules, n - 1);
      if HasDirectory(modules[n - 1]) {
        var p, text := PathAfter(initial, modules, n - 1), PathText(modules, n - 1);
        FittingStep(p, text, Directory(modules[n - 1]));
      }
    }
  }

  /** Every accepted directory is somewhere in the path. */
  lemma {:induction false} DirectoriesAreThere(modules: seq<CString>, n: nat, i: nat)
    requires i < n <= |modules| && HasDirectory(modules[i])
    ensures Contains(PathText(modules, n), Directory(modules[i]))
    decreases n
  {
    var before := PathText(modules, n - 1);
    if i == n - 1 {
      AddedIsThere(before, Directory(modules[i]));
    } else {
      DirectoriesAreThere(modules, n - 1, i);
      if HasDirectory(modules[n - 1]) {
        var dir := Directory(modules[n - 1]);
        if !Contains(before, dir) {
          if before == [] {
            assert [] + dir == dir;
            ContainsMore([], Directory(modules[i]), dir);
          } else {
            assert before + [SEMICOLON] + dir == before + ([SEMICOLON] + dir);
            ContainsMore(before, Directory(modules[i]), [SEMICOLON] + dir);
          }
        }
      }
    }
  }

  /** A directory comes into the path but once. */
  lemma RepeatsAddNothing(modules: seq<CString>, n: nat, i: nat)
    requires i < n < |modules| && HasDirectory(modules[i]) && HasDirectory(modules[n])
    requires Directory(modules[i]) == Directory(modules[n])
    ensures PathText(modules, n + 1) == PathText(modules, n)
  {
    DirectoriesAreThere(modules, n, i);
  }

  lemma AddedIsThere(text: CString, dir: CString)
    ensures Contains(AddText(text, dir), dir)
  {
    if !Contains(text, dir) {
      var r := AddText(text, dir);
      assert OccursAt(r, dir, |r| - |dir|);
    }
  }

  // When a directory does not fit

  /** `q` is `p` with more recorded: nothing recorded before has changed, nor any byte behind the
      recorded part and its end, and there is no terminator in it. */
  ghost predicate Extends(p: Path, q: Path) {
    && p.Valid() && q.Valid() && p.len <= q.len
    && (forall k :: 0 <= k < p.len ==> q.mem[k] == p.mem[k])
    && (forall k :: q.len < k < PATH_SIZE ==> q.mem[k] == p.mem[k])
    && (forall k :: 0 <= k < q.len ==> q.mem[k] != 0)
  }

  lemma ExtendsTrans(p: Path, q: Path, r: Path)
    requires Extends(p, q) && Extends(q, r)
    ensures Extends(p, r)
  {
  }

  lemma SeparateExtends(p: Path)
    requires Extends(p, p)
    ensures Extends(p, Separate(p)) && Extends(Separate(p), Separate(p))
  {
  }

  lemma WriteExtends(p: Path, dir: CString)
    requires Extends(p, p)
    ensures Extends(p, Write(p, dir)) && Extends(Write(p, dir), Write(p, dir))
  {
    assert forall k :: 0 <= k < |dir| ==> dir[k] in dir;
  }

  lemma StepExtends(p: Path, dir: CString)
    requires Extends(p, p)
    ensures Extends(p, AddDirectory(p, dir)) && Extends(AddDirectory(p, dir), AddDirectory(p, dir))
  {
    SeparateExtends(p);
    WriteExtends(Separate(p), dir);
    ExtendsTrans(p, Separate(p), Write(Separate(p), dir));
  }

  /** Whether or not directories fit, what is recorded stays. */
  lemma {:induction false} PathExtends(initial: seq<byte>, modules: seq<CString>, i: nat, n: nat)
    requires |initial| == PATH_SIZE && i <= n <= |modules|
    ensures Extends(PathAfter(initial, modules, i), PathAfter(initial, modules, n))
    decreases n
  {
    if 0 < n {
      var p := PathAfter(initial, modules, n - 1);
      PathExtends(initial, modules, n - 1, n - 1);
      if HasDirectory(modules[n - 1]) {
        StepExtends(p, Directory(modules[n - 1]));
      }
      if i < n {
        PathExtends(initial, modules, i, n - 1);
        ExtendsTrans(PathAfter(initial, modules, i), p, PathAfter(initial, modules, n));
      }
    }
  }

  /** A directory that is new and has room when its turn comes is in the final path, even if others
      had no room. */
  lemma WrittenStays(initial: seq<byte>, modules: seq<CString>, i: nat)
    requires |initial| == PATH_SIZE && i < |modules| && HasDirectory(modules[i])
    requires var p, dir := PathAfter(initial, modules, i), Directory(modules[i]);
             !Contains(AsciiText(p.mem), dir) && Separate(p).len + |dir| < PATH_SIZE
    ensures var q := PathAfter(initial, modules, |modules|);
            Contains(q.mem[..q.len], Directory(modules[i]))
  {
    var q := PathAfter(initial, modules, |modules|);
    PathExtends(initial, modules, i + 1, |modules|);
    WrittenIsThere(Separate(PathAfter(initial, modules, i)), Directory(modules[i]), q);
  }

  lemma WrittenIsThere(p: Path, dir: CString, q: Path)
    requires p.Valid() && p.len + |dir| < PATH_SIZE && Extends(Write(p, dir), q)
    ensures Contains(q.mem[..q.len], dir)
  {
    var r := Write(p, dir);
    assert forall k :: 0 <= k < |dir| ==> r.mem[p.len + k] == dir[k];
    assert q.mem[..q.len][p.len..p.len + |dir|] == dir;
    assert OccursAt(q.mem[..q.len], dir, p.len);
  }

  /** The buffer is a C string of its recorded length. */
  predicate IsString(p: Path) {
    p.Valid() && ReadsAs(p.mem, 0, p.mem[..p.len])
  }

  function Separated(text: CString): (r: CString)
    requires |text| < PATH_SIZE
    ensures |r| < PATH_SIZE
  {
    if text != [] && |text| + 1 < PATH_SIZE then text + [SEMICOLON] else text
  }

  /** What one directory makes of the text, whether or not it fits. */
  function RecordedStep(text: CString, dir: CString): (r: CString)
    requires |text| < PATH_SIZE
    ensures |r| < PATH_SIZE
  {
    if Contains(text, dir) then text
    else if |Separated(text)| + |dir| < PATH_SIZE then Separated(text) + dir
    else Separated(text)
  }

  /** The directory leaves a C string behind: it is in the path already, it fits, no separator goes in
      because the path ends with the buffer, or there was a zero behind the separator from the start. */
  predicate KeepsString(initial: seq<byte>, text: CString, dir: CString)
    requires |initial| == PATH_SIZE && |text| < PATH_SIZE
  {
    || Contains(text, dir) || |Separated(text)| + |dir| < PATH_SIZE
    || Separated(text) == text || initial[|Separated(text)|] == 0
  }

  /** That condition is exact for a path that is a C string, in a buffer untouched behind it. */
  lemma StepStringIff(initial: seq<byte>, p: Path, text: CString, dir: CString)
    requires |initial| == PATH_SIZE && Holds(p, text)
    requires forall k :: p.len < k < PATH_SIZE ==> p.mem[k] == initial[k]
    ensures IsString(AddDirectory(p, dir)) <==> KeepsString(initial, text, dir)
    ensures KeepsString(initial, text, dir) ==> Holds(AddDirectory(p, dir), RecordedStep(text, dir))
  {
    ReadsAsText(p.mem, 0, text);
    assert p.mem[0..] == p.mem;
    if Contains(text, dir) {
      assert p.mem[..p.len] == text;
    } else {
      SeparateHolds(p, text);
      WriteHolds(Separate(p), Separated(text), dir);
    }
  }

  /** `text` is recorded, terminated or not. */
  predicate Records(p: Path, text: CString) {
    p.Valid() && p.len == |text| && p.mem[..p.len] == text
  }

  lemma SeparateHolds(p: Path, text: CString)
    requires Holds(p, text)
    ensures var q := Separate(p);
            && Records(q, Separated(text))
            && q.mem[q.len] == if Separated(text) == text then 0 else p.mem[q.len]
  {
    assert p.mem[..p.len] == text;
  }

  lemma WriteHolds(p: Path, text: CString, dir: CString)
    requires Records(p, text)
    ensures var q, more := Write(p, dir), if |text| + |dir| < PATH_SIZE then text + dir else text;
            && Records(q, more)
            && q.mem[q.len] == if |text| + |dir| < PATH_SIZE then 0 else p.mem[p.len]
  {
    if |text| + |dir| < PATH_SIZE {
      var q := Write(p, dir);
      assert q.mem[..p.len] == p.mem[..p.len];
      assert q.mem[..q.len] == q.mem[..p.len] + dir;
    }
  }

  /** The text recorded for the first `n` modules, and the condition for each of them. */
  function RecordedText(modules: seq<CString>, n: nat): (text: CString)
    requires n <= |modules|
    ensures |text| < PATH_SIZE
  {
    if n == 0 then []
    else
      var text := RecordedText(modules, n - 1);
      if HasDirectory(modules[n - 1]) then RecordedStep(text, Directory(modules[n - 1])) else text
  }

  predicate AllKeepString(initial: seq<byte>, modules: seq<CString>, n: nat)
    requires |initial| == PATH_SIZE && n <= |modules|
  {
    n == 0 ||
    (AllKeepString(initial, modules, n - 1) &&
     (HasDirectory(modules[n - 1]) ==>
        KeepsString(initial, RecordedText(modules, n - 1), Directory(modules[n - 1]))))
  }

  /** After `n` modules the buffer is the recorded text. */
  predicate RecordedAfter(initial: seq<byte>, modules: seq<CString>, n: nat)
    requires |initial| == PATH_SIZE && n <= |modules|
  {
    Holds(PathAfter(initial, modules, n), RecordedText(modules, n))
  }

  predicate StringAfter(initial: seq<byte>, modules: seq<CString>, n: nat)
    requires |initial| == PATH_SIZE && n <= |modules|
  {
    IsString(PathAfter(initial, modules, n))
  }

  /** The path is a C string all along a run if and only if every directory keeps it so. */
  lemma {:induction false} PathStringIff(initial: seq<byte>, modules: seq<CString>, n: nat)
    requires |initial| == PATH_SIZE && n <= |modules|
    ensures (forall i :: 0 <= i <= n ==> StringAfter(initial, modules, i)) <==>
            AllKeepString(initial, modules, n)
    ensures AllKeepString(initial, modules, n) ==> RecordedAfter(initial, modules, n)
  {
    if n == 0 {
      assert PathAfter(initial, modules, 0).mem[..0] == [];
    } else {
      PathStringIff(initial, modules, n - 1);
      if AllKeepString(initial, modules, n - 1) {
        NextString(initial, modules, n - 1);
      }
    }
  }

  lemma NextString(initial: seq<byte>, modules: seq<CString>, n: nat)
    requires |initial| == PATH_SIZE && n < |modules| && AllKeepString(initial, modules, n)
    requires RecordedAfter(initial, modules, n)
    ensures StringAfter(initial, modules, n + 1) <==> AllKeepString(initial, modules, n + 1)
    ensures AllKeepString(initial, modules, n + 1) ==> RecordedAfter(initial, modules, n + 1)
  {
    var p, text := PathAfter(initial, modules, n), RecordedText(modules, n);
    PathExtends(initial, modules, 0, n);
    if HasDirectory(modules[n]) {
      StepStringIff(initial, p, text, Directory(modules[n]));
    } else {
      assert p.mem[..p.len] == text;
    }
  }

  /** The first directory that does not fit leaves a separator and, behind it, what was there before
      the path was built. */
  lemma FirstUnfit(initial: seq<byte>, modules: seq<CString>, n: nat)
    requires |initial| == PATH_SIZE && n < |modules| && AllFit(modules, n) && HasDirectory(modules[n])
    requires var text := PathText(modules, n);
             && 0 < |text| && |text| + 1 < PATH_SIZE && !Contains(text, Directory(modules[n]))
             && !Fits(text, Directory(modules[n]))
    ensures var r := PathAfter(initial, modules, n + 1);
            r.len == |PathText(modules, n)| + 1 && r.mem[r.len - 1] == SEMICOLON && r.mem[r.len] == initial[r.len]
  {
    var p, text := PathAfter(initial, modules, n), PathText(modules, n);
    HoldsWhileFitting(initial, modules, n);
    PathExtends(initial, modules, 0, n);
    UnfitStep(p, text, Directory(modules[n]));
  }

  lemma UnfitStep(p: Path, text: CString, dir: CString)
    requires Holds(p, text) && text != [] && |text| + 1 < PATH_SIZE && !Contains(text, dir) && !Fits(text, dir)
    ensures AddDirectory(p, dir) == Path(p.mem[p.len := SEMICOLON], p.len + 1)
  {
    ReadsAsText(p.mem, 0, text);
    assert p.mem[0..] == p.mem;
  }

  // Such a directory exists

  /** 259 equal characters. */
  function LongDirectory(b: byte): (dir: CString)
    requires b != 0
    ensures |dir| == MAX_PATH - 1 && forall k :: 0 <= k < |dir| ==> dir[k] == b
  {
    seq(MAX_PATH - 1, _ => b)
  }

  const LONG_MODULE_COUNT: nat := 127

  /** Modules that are each in a long directory of their own. */
  function LongModules(): (modules: seq<CString>)
    ensures |modules| == LONG_MODULE_COUNT
  {
    seq(LONG_MODULE_COUNT, i requires 0 <= i < LONG_MODULE_COUNT => LongDirectory(100 + i) + [BACKSLASH])
  }

  lemma LongModuleAt(i: nat)
    requires i < 127
    ensures HasDirectory(LongModules()[i]) && Directory(LongModules()[i]) == LongDirectory(100 + i)
  {
    var path := LongModules()[i];
    assert path[MAX_PATH - 1] == BACKSLASH;
    assert LastBackslash(path) == MAX_PATH - 1;
    assert path[..MAX_PATH - 1] == LongDirectory(100 + i);
  }

  lemma ContainsFirst(text: seq<byte>, sub: seq<byte>)
    requires Contains(text, sub) && sub != []
    ensures sub[0] in text
  {
    var i: nat :| i <= |text| && OccursAt(text, sub, i);
    assert text[i] == text[i..i + |sub|][0];
  }

  /** The text after `n` of them: no byte of it is in a later directory. */
  ghost predicate LongText(n: nat, text: CString) {
    && |text| == (if n == 0 then 0 else MAX_PATH * n - 1)
    && forall k :: 0 <= k < |text| ==> text[k] < 100 + n
  }

  /** The first 126 of them fit, up to the last 9 bytes of the buffer. */
  lemma {:induction false} LongPath(n: nat)
    requires n <= 126
    ensures LongText(n, PathText(LongModules(), n)) && AllFit(LongModules(), n)
  {
    if 0 < n {
      LongPath(n - 1);
      LongModuleAt(n - 1);
      LongStep(n - 1, PathText(LongModules(), n - 1));
    }
  }

  lemma LongStep(n: nat, text: CString)
    requires n < 127 && LongText(n, text)
    ensures !Contains(text, LongDirectory(100 + n))
    ensures n < 126 ==> Fits(text, LongDirectory(100 + n)) && LongText(n + 1, AddText(text, LongDirectory(100 + n)))
  {
    if Contains(text, LongDirectory(100 + n)) {
      ContainsFirst(text, LongDirectory(100 + n));
    }
  }

  /** Module 127 costs the path its terminator, unless the buffer happened to hold a zero there. */
  lemma LostTerminator(initial: seq<byte>)
    requires |initial| == PATH_SIZE
    ensures var r := PathAfter(initial, LongModules(), LONG_MODULE_COUNT);
            r.len == 32760 && (r.mem[r.len] == 0 <==> initial[r.len] == 0)
  {
    var n := LONG_MODULE_COUNT - 1;
    LongPath(n);
    LongModuleAt(n);
    LongStep(n, PathText(LongModules(), n));
    FirstUnfit(initial, LongModules(), n);
  }
}
