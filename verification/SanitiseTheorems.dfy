/** What _httpd_sanitiseUrl guarantees of every text, and exactly when it agrees with the
    remove_dot_segments routine of section 5.2.4 of RFC 3986. */
module SanitiseTheorems {
  import opened Base
  import opened CStrings
  import opened Sanitise

  // ----- The result on names -----

  function Cleaned(segs: seq<string>): seq<string> {
    Without(".", Without("", segs))
  }

  lemma {:induction false} WithoutNames(drop: string, segs: seq<string>)
    requires Names(segs)
    ensures Names(Without(drop, segs))
    ensures segs != [] ==> Without(drop, segs) != [] && Without(drop, segs)[|Without(drop, segs)| - 1] == segs[|segs| - 1]
  {
    if |segs| > 1 {
      WithoutNames(drop, segs[1..]);
    }
  }

  lemma SanitisedPath(first: string, segs: seq<string>)
    requires Name(first) && Names(segs)
    ensures var (f, st) := ClimbTo(Cleaned(segs), first, [], false);
            Sanitised(first + Path(segs)) == f + Path(st)
  {
    SqueezeName(first, Path(segs));
    SqueezePath(segs);
    WithoutNames("", segs);
    DropDotsName(first, Path(Without("", segs)));
    DropDotsPath(Without("", segs));
    WithoutNames(".", Without("", segs));
    ClimbName(first, Path(Cleaned(segs)), "", 0);
    assert "" + first == first == first + Path([]);
    ClimbPath(Cleaned(segs), first, [], false);
  }

  // ----- No "//", "/./" or "/../" is left -----

  predicate Free(segs: seq<string>, bad: set<string>) {
    forall i :: 0 <= i < |segs| - 1 ==> segs[i] !in bad
  }

  lemma {:induction false} WithoutFrees(drop: string, segs: seq<string>, bad: set<string>)
    requires Free(segs, bad)
    ensures Free(Without(drop, segs), bad + {drop})
  {
    if |segs| > 1 {
      assert forall i :: 0 <= i < |segs[1..]| - 1 ==> segs[1..][i] == segs[i + 1];
      WithoutFrees(drop, segs[1..], bad);
    }
  }

  lemma {:induction false} ClimbFrees(segs: seq<string>, first: string, stack: seq<string>, popped: bool)
    requires Names(segs) && Names(stack) && Name(first)
    requires Free(segs, {"", "."})
    requires if segs == [] then Free(stack, {"", ".", ".."})
             else forall i :: 0 <= i < |stack| ==> stack[i] !in {"", ".", ".."}
    ensures var (f, st) := ClimbTo(segs, first, stack, popped);
            Name(f) && Names(st) && Free(st, {"", ".", ".."})
    decreases |segs|
  {
    if segs != [] {
      assert forall i :: 0 <= i < |segs[1..]| - 1 ==> segs[1..][i] == segs[i + 1];
      if segs[0] == ".." && |segs| > 1 {
        if popped {
          ClimbFrees(segs[1..], first, stack, true);
        } else if stack != [] {
          ClimbFrees(segs[1..], first, stack[..|stack| - 1], true);
        } else {
          ClimbFrees(segs[1..], "", [], true);
        }
      } else {
        ClimbFrees(segs[1..], first, stack + [segs[0]], false);
      }
    }
  }

  /** An occurrence of "/x/" in a path is a name x with a name after it. */
  lemma {:induction false} InnerName(first: string, segs: seq<string>, x: string, k: nat)
    requires Name(first) && Names(segs) && Name(x)
    requires k <= |first + Path(segs)| && Starts((first + Path(segs))[k..], "/" + x + "/")
    ensures exists i :: 0 <= i < |segs| - 1 && segs[i] == x
    decreases |segs|
  {
    var s := first + Path(segs);
    assert s[k] == s[k..][0] == '/';
    assert s[..|first|] == first;
    assert k >= |first|;
    assert segs != [];
    if k == |first| {
      assert s[k..] == Path(segs);
      StartsIff(segs, x);
    } else {
      var rest := segs[0] + Path(segs[1..]);
      assert s == first + "/" + rest;
      assert s[k..] == rest[k - |first| - 1..];
      InnerName(segs[0], segs[1..], x, k - |first| - 1);
      var i :| 0 <= i < |segs[1..]| - 1 && segs[1..][i] == x;
      assert segs[i + 1] == x;
    }
  }

  /** Where the input's names end up. */
  lemma SanitisedNames(s: string) returns (f: string, st: seq<string>)
    ensures Sanitised(s) == f + Path(st) && Name(f) && Names(st) && Free(st, {"", ".", ".."})
  {
    SegmentsJoin(s);
    var t := Segments(s);
    var first, segs := t[0], t[1..];
    SanitisedPath(first, segs);
    WithoutNames("", segs);
    WithoutNames(".", Without("", segs));
    WithoutFrees("", segs, {});
    assert {} + {""} == {""};
    WithoutFrees(".", Without("", segs), {""});
    assert {""} + {"."} == {"", "."};
    ClimbFrees(Cleaned(segs), first, [], false);
    f, st := ClimbTo(Cleaned(segs), first, [], false).0, ClimbTo(Cleaned(segs), first, [], false).1;
  }

  /** For every input, no "//", no "/./" and no "/../" is left anywhere. */
  lemma NothingToClimb(s: string, k: nat)
    requires k <= |Sanitised(s)|
    ensures var rest := Sanitised(s)[k..];
            !Starts(rest, "//") && !Starts(rest, "/./") && !Starts(rest, "/../")
  {
    var f, st := SanitisedNames(s);
    NoInner(f, st, "", k);
    NoInner(f, st, ".", k);
    NoInner(f, st, "..", k);
    assert "/" + "" + "/" == "//" && "/" + "." + "/" == "/./" && "/" + ".." + "/" == "/../";
  }

  lemma NoInner(f: string, st: seq<string>, x: string, k: nat)
    requires Name(f) && Names(st) && Free(st, {"", ".", ".."}) && x in {"", ".", ".."}
    requires k <= |f + Path(st)|
    ensures !Starts((f + Path(st))[k..], "/" + x + "/")
  {
    if Starts((f + Path(st))[k..], "/" + x + "/") {
      InnerName(f, st, x, k);
      assert false;
    }
  }

  lemma {:induction false} WithoutNothing(drop: string, segs: seq<string>)
    requires Free(segs, {drop})
    ensures Without(drop, segs) == segs
  {
    if |segs| > 1 {
      assert segs[0] != drop;
      assert forall i :: 0 <= i < |segs[1..]| - 1 ==> segs[1..][i] == segs[i + 1];
      WithoutNothing(drop, segs[1..]);
    }
  }

  lemma {:induction false} ClimbNothing(segs: seq<string>, first: string, stack: seq<string>, popped: bool)
    requires Free(segs, {".."})
    ensures ClimbTo(segs, first, stack, popped) == (first, stack + segs)
    decreases |segs|
  {
    if segs == [] {
      assert stack + segs == stack;
    } else {
      assert forall i :: 0 <= i < |segs[1..]| - 1 ==> segs[1..][i] == segs[i + 1];
      ClimbNothing(segs[1..], first, stack + [segs[0]], false);
      assert stack + [segs[0]] + segs[1..] == stack + segs;
    }
  }

  /** Sanitising twice is sanitising once. */
  lemma Idempotent(s: string)
    ensures Sanitised(Sanitised(s)) == Sanitised(s)
  {
    var f, st := SanitisedNames(s);
    SanitisedPath(f, st);
    WithoutNothing("", st);
    WithoutNothing(".", st);
    ClimbNothing(st, f, [], false);
    assert [] + st == st;
  }

  lemma {:induction false} SqueezeShrinks(s: string)
    ensures |Squeeze(s)| <= |s|
  {
    if s != "" {
      SqueezeShrinks(s[1..]);
    }
  }

  lemma {:induction false} DropDotsShrinks(s: string)
    ensures |DropDots(s)| <= |s|
    decreases |s|
  {
    if s != "" {
      if Starts(s, "/./") {
        DropDotsShrinks(s[2..]);
      } else {
        DropDotsShrinks(s[1..]);
      }
    }
  }

  lemma {:induction false} ClimbShrinks(s: string, out: string, last: nat)
    requires last <= |out|
    ensures |Climb(s, out, last)| <= |out| + |s|
    decreases |s|
  {
    if s != "" {
      if Starts(s, "/../") {
        ClimbShrinks(s[3..], out[..last], last);
      } else {
        ClimbShrinks(s[1..], out + [s[0]], if s[0] == '/' then |out| else last);
      }
    }
  }

  lemma NeverLonger(s: string)
    ensures |Sanitised(s)| <= |s|
  {
    SqueezeShrinks(s);
    DropDotsShrinks(Squeeze(s));
    ClimbShrinks(DropDots(Squeeze(s)), "", 0);
  }

  // ----- Section 5.2.4 of RFC 3986 -----

  /** The output without its last segment and the slash before it. */
  function DropSegment(out: string): (r: string)
    ensures |r| <= |out|
  {
    if out == "" then ""
    else if out[|out| - 1] == '/' then out[..|out| - 1]
    else DropSegment(out[..|out| - 1])
  }

  /** Where the first segment ends: at the next slash after an initial one. */
  function SegmentEnd(input: string): (n: nat)
    requires input != ""
    ensures 0 < n <= |input|
  {
    1 + Until(input[1..], '/')
  }

  /** Steps A to E, applied until the input buffer is empty. */
  function RemoveDotSegments(input: string, out: string): string
    decreases |input|
  {
    if input == "" then out
    else if Starts(input, "../") then RemoveDotSegments(input[3..], out)
    else if Starts(input, "./") then RemoveDotSegments(input[2..], out)
    else if Starts(input, "/./") then RemoveDotSegments(input[2..], out)
    else if input == "/." then RemoveDotSegments("/", out)
    else if Starts(input, "/../") then RemoveDotSegments(input[3..], DropSegment(out))
    else if input == "/.." then RemoveDotSegments("/", DropSegment(out))
    else if input == "." || input == ".." then out
    else RemoveDotSegments(input[SegmentEnd(input)..], out + input[..SegmentEnd(input)])
  }

  /** The same on the names of an absolute path. */
  function Resolved(segs: seq<string>, stack: seq<string>): seq<string> {
    if segs == [] then stack
    else if segs[0] == "." then
      if |segs| > 1 then Resolved(segs[1..], stack) else stack + [""]
    else if segs[0] == ".." then
      if |segs| > 1 then Resolved(segs[1..], Up(stack)) else Up(stack) + [""]
    else Resolved(segs[1..], stack + [segs[0]])
  }

  function Up(stack: seq<string>): seq<string> {
    if stack == [] then [] else stack[..|stack| - 1]
  }

  lemma {:induction false} DropSegmentName(out: string, name: string)
    requires Name(name)
    ensures DropSegment(out + "/" + name) == out
    decreases |name|
  {
    var s := out + "/" + name;
    if name == "" {
      assert s[..|s| - 1] == out;
    } else {
      assert s[|s| - 1] == name[|name| - 1];
      assert name[|name| - 1] in name;
      assert s[..|s| - 1] == out + "/" + name[..|name| - 1];
      DropSegmentName(out, name[..|name| - 1]);
    }
  }

  lemma DropSegmentPath(stack: seq<string>)
    requires Names(stack)
    ensures DropSegment(Path(stack)) == Path(Up(stack))
  {
    if stack != [] {
      var rest, name := Up(stack), stack[|stack| - 1];
      assert stack == rest + [name];
      PathSnoc("", rest, name);
      assert "" + Path(stack) == Path(stack) && "" + Path(rest) == Path(rest);
      DropSegmentName(Path(rest), name);
    }
  }

  /** A lone slash in the input becomes an empty last name. */
  lemma OnlySlash(out: string)
    ensures RemoveDotSegments("/", out) == out + "/"
  {
    assert Until("", '/') == 0;
    assert "/"[SegmentEnd("/")..] == "";
  }

  lemma LoneName(name: string)
    ensures Path([name]) == "/" + name
  {
    assert Path([name]) == "/" + name + "";
  }

  lemma SkipsDot(rest: string, out: string)
    requires rest != "" && rest[0] == '/'
    ensures RemoveDotSegments("/." + rest, out) == RemoveDotSegments(rest, out)
  {
    var s := "/." + rest;
    assert s[0] == '/' && s[1] == '.' && s[2] == '/';
    assert s[..3] == "/./" && s[2..] == rest;
    assert !Starts(s, "../") && !Starts(s, "./");
  }

  lemma SkipsDotDot(rest: string, out: string)
    requires rest != "" && rest[0] == '/'
    ensures RemoveDotSegments("/.." + rest, out) == RemoveDotSegments(rest, DropSegment(out))
  {
    var s := "/.." + rest;
    assert s[0] == '/' && s[1] == '.' && s[2] == '.' && s[3] == '/';
    assert s[..4] == "/../" && s[3..] == rest;
    assert !Starts(s, "../") && !Starts(s, "./") && !Starts(s, "/./") && s != "/.";
  }

  lemma LastDots(out: string)
    ensures RemoveDotSegments("/.", out) == out + "/"
    ensures RemoveDotSegments("/..", out) == DropSegment(out) + "/"
  {
    OnlySlash(out);
    OnlySlash(DropSegment(out));
    assert "/."[1] == "/.."[1] == '.' && "/.."[2] == '.';
  }

  lemma MovesName(s: string, out: string)
    requires s != "" && s[0] == '/' && !Starts(s, "/./") && !Starts(s, "/../") && s != "/." && s != "/.."
    ensures RemoveDotSegments(s, out) == RemoveDotSegments(s[SegmentEnd(s)..], out + s[..SegmentEnd(s)])
  {
    assert !Starts(s, "../") && !Starts(s, "./") && s != "." && s != "..";
  }

  lemma {:induction false} ResolvePath(segs: seq<string>, stack: seq<string>)
    requires Names(segs) && Names(stack)
    ensures RemoveDotSegments(Path(segs), Path(stack)) == Path(Resolved(segs, stack))
    decreases |segs|, 1
  {
    if segs != [] {
      DropSegmentPath(stack);
      if segs[0] == "." || segs[0] == ".." {
        ResolveDots(segs, stack);
      } else {
        ResolveName(segs, stack);
      }
    }
  }

  lemma ResolveDots(segs: seq<string>, stack: seq<string>)
    requires Names(segs) && Names(stack) && segs != [] && (segs[0] == "." || segs[0] == "..")
    requires DropSegment(Path(stack)) == Path(Up(stack))
    ensures RemoveDotSegments(Path(segs), Path(stack)) == Path(Resolved(segs, stack))
    decreases |segs|, 0
  {
    if |segs| == 1 {
      assert segs == [segs[0]];
      ResolveLast(segs[0], stack);
    } else {
      var rest := segs[1..];
      ResolvePath(rest, stack);
      ResolvePath(rest, Up(stack));
      assert Path(rest)[0] == '/';
      if segs[0] == "." {
        PathDots(segs, "/.");
        SkipsDot(Path(rest), Path(stack));
      } else {
        PathDots(segs, "/..");
        SkipsDotDot(Path(rest), Path(stack));
      }
    }
  }

  lemma PathDots(segs: seq<string>, start: string)
    requires segs != [] && start == "/" + segs[0]
    ensures Path(segs) == start + Path(segs[1..])
  {
  }

  lemma ResolveLast(name: string, stack: seq<string>)
    requires name == "." || name == ".."
    requires DropSegment(Path(stack)) == Path(Up(stack))
    ensures RemoveDotSegments(Path([name]), Path(stack)) == Path(Resolved([name], stack))
  {
    var up := if name == "." then stack else Up(stack);
    LoneName(name);
    assert "/" + "." == "/." && "/" + ".." == "/..";
    LastDots(Path(stack));
    PathAppend(up, [""]);
    LoneName("");
    assert "/" + "" == "/";
  }

  lemma ResolveName(segs: seq<string>, stack: seq<string>)
    requires Names(segs) && Names(stack) && segs != [] && segs[0] != "." && segs[0] != ".."
    ensures RemoveDotSegments(Path(segs), Path(stack)) == Path(Resolved(segs, stack))
    decreases |segs|, 0
  {
    var name, rest := segs[0], segs[1..];
    StartsIff(segs, ".");
    StartsIff(segs, "..");
    assert "/" + "." + "/" == "/./" && "/" + ".." + "/" == "/../";
    OnlyName(segs, ".");
    OnlyName(segs, "..");
    MovesName(Path(segs), Path(stack));
    FirstSegment(name, rest);
    PathAppend(stack, [name]);
    LoneName(name);
    ResolvePath(rest, stack + [name]);
  }

  lemma FirstSegment(name: string, rest: seq<string>)
    requires Name(name)
    ensures var s := "/" + name + Path(rest);
            s[..SegmentEnd(s)] == "/" + name && s[SegmentEnd(s)..] == Path(rest)
  {
    var s := "/" + name + Path(rest);
    assert s[1..] == name + Path(rest);
    NameEnds(name, rest);
    assert s == ("/" + name) + Path(rest);
  }

  lemma OnlyName(segs: seq<string>, x: string)
    requires Names(segs) && segs != [] && segs[0] != x && Name(x)
    ensures Path(segs) != "/" + x
  {
    if Path(segs) == "/" + x {
      LoneName(x);
      PathInjective(segs, [x]);
      assert false;
    }
  }

  lemma {:induction false} ResolvedSkipsDots(segs: seq<string>, stack: seq<string>)
    ensures Resolved(Without(".", segs), stack) == Resolved(segs, stack)
    decreases |segs|
  {
    if |segs| > 1 {
      WithoutLast(".", segs[1..]);
      ResolvedSkipsDots(segs[1..], stack);
      ResolvedSkipsDots(segs[1..], Up(stack));
      ResolvedSkipsDots(segs[1..], stack + [segs[0]]);
    }
  }

  lemma {:induction false} WithoutLast(drop: string, segs: seq<string>)
    requires segs != []
    ensures Without(drop, segs) != []
  {
    if |segs| > 1 {
      WithoutLast(drop, segs[1..]);
    }
  }

  // ----- When the two agree -----

  /** Some ".." other than the last name comes straight after another and still has a name
      to remove. */
  predicate Doubled(segs: seq<string>, depth: nat, popped: bool) {
    |segs| > 1 &&
    if segs[0] == ".." then (popped && depth > 0) || Doubled(segs[1..], if depth > 0 then depth - 1 else 0, true)
    else Doubled(segs[1..], depth + 1, false)
  }

  predicate EndsInDots(segs: seq<string>) {
    segs != [] && segs[|segs| - 1] in {".", ".."}
  }

  lemma {:induction false} InStep(segs: seq<string>, stack: seq<string>, popped: bool)
    requires Free(segs, {"."}) && segs != []
    ensures ClimbTo(segs, "", stack, popped) == ("", Resolved(segs, stack)) <==>
            !EndsInDots(segs) && !Doubled(segs, |stack|, popped)
    ensures ClimbTo(segs, "", stack, popped).0 == ""
    decreases |segs|
  {
    if |segs| == 1 {
      LastStep(segs[0], stack, popped);
    } else {
      assert forall i :: 0 <= i < |segs[1..]| - 1 ==> segs[1..][i] == segs[i + 1];
      assert segs[1..][|segs[1..]| - 1] == segs[|segs| - 1];
      if segs[0] != ".." {
        InStep(segs[1..], stack + [segs[0]], false);
      } else if popped && stack != [] {
        Ahead(segs[1..], stack, Up(stack), true);
      } else {
        InStep(segs[1..], Up(stack), true);
      }
    }
  }

  lemma LastStep(name: string, stack: seq<string>, popped: bool)
    ensures ClimbTo([name], "", stack, popped) == ("", stack + [name])
    ensures Resolved([name], stack) == stack + [name] <==> name !in {".", ".."}
  {
    assert [name][1..] == [];
    assert (stack + [name])[|stack|] == name;
    var r := Resolved([name], stack);
    assert name in {".", ".."} ==> r != [] && r[|r| - 1] == "";
  }

  /** Once the code has kept a name too many it never catches up. */
  lemma {:induction false} Ahead(segs: seq<string>, kept: seq<string>, stack: seq<string>, popped: bool)
    requires Free(segs, {"."}) && segs != []
    requires |kept| > |stack| && (!popped ==> stack != [])
    ensures var (f, st) := ClimbTo(segs, "", kept, popped);
            f == "" && |st| > |Resolved(segs, stack)|
    decreases |segs|
  {
    if |segs| == 1 {
      assert segs[1..] == [];
    } else {
      assert forall i :: 0 <= i < |segs[1..]| - 1 ==> segs[1..][i] == segs[i + 1];
      if segs[0] != ".." {
        Ahead(segs[1..], kept + [segs[0]], stack + [segs[0]], false);
      } else {
        Ahead(segs[1..], if popped then kept else kept[..|kept| - 1], Up(stack), true);
      }
    }
  }

  lemma {:induction false} ResolvedNames(segs: seq<string>, stack: seq<string>)
    requires Names(segs) && Names(stack)
    ensures Names(Resolved(segs, stack))
    decreases |segs|
  {
    if |segs| > 0 {
      ResolvedNames(segs[1..], stack);
      ResolvedNames(segs[1..], Up(stack));
      ResolvedNames(segs[1..], stack + [segs[0]]);
    }
  }

  /** Sanitising an absolute path gives what section 5.2.4 gives once runs of slashes are
      squeezed, unless the path ends in a dot segment or has a ".." that directly follows
      another (dots aside) with a name left to remove. */
  lemma AgreesWithTheStandard(segs: seq<string>)
    requires segs != [] && Names(segs)
    ensures Sanitised(Path(segs)) == RemoveDotSegments(Squeeze(Path(segs)), "") <==>
            !EndsInDots(segs) && !Doubled(Cleaned(segs), 0, false)
  {
    var flat, names := Without("", segs), Cleaned(segs);
    WithoutNames("", segs);
    WithoutNames(".", flat);
    SanitisedPath("", segs);
    assert "" + Path(segs) == Path(segs);
    SqueezePath(segs);
    ResolvePath(flat, []);
    ResolvedSkipsDots(flat, []);
    ResolvedNames(names, []);
    WithoutFrees(".", flat, {});
    assert {} + {"."} == {"."};
    InStep(names, [], false);
    SameText(names);
  }

  lemma SameText(names: seq<string>)
    requires Names(names) && names != [] && Free(names, {"."}) && Names(Resolved(names, []))
    ensures var (f, st) := ClimbTo(names, "", [], false);
            f == "" ==> (f + Path(st) == Path(Resolved(names, [])) <==> st == Resolved(names, []))
  {
    var (f, st) := ClimbTo(names, "", [], false);
    ClimbNames(names, "", [], false);
    assert "" + Path(st) == Path(st);
    if Path(st) == Path(Resolved(names, [])) {
      PathInjective(st, Resolved(names, []));
    }
  }

  lemma {:induction false} ClimbNames(segs: seq<string>, first: string, stack: seq<string>, popped: bool)
    requires Names(segs) && Names(stack)
    ensures Names(ClimbTo(segs, first, stack, popped).1)
    decreases |segs|
  {
    if segs != [] {
      if segs[0] == ".." && |segs| > 1 {
        ClimbNames(segs[1..], first, stack, true);
        ClimbNames(segs[1..], "", [], true);
        ClimbNames(segs[1..], first, Up(stack), true);
      } else {
        ClimbNames(segs[1..], first, stack + [segs[0]], false);
      }
    }
  }

  /** With no empty name inside, squeezing changes nothing and the two agree as they stand. */
  lemma AgreesOnPlainPaths(segs: seq<string>)
    requires segs != [] && Names(segs) && Free(segs, {""})
    ensures Sanitised(Path(segs)) == RemoveDotSegments(Path(segs), "") <==>
            !EndsInDots(segs) && !Doubled(Without(".", segs), 0, false)
  {
    SqueezePath(segs);
    WithoutNothing("", segs);
    AgreesWithTheStandard(segs);
  }

  /** Two climbs in a row: the code removes one name where the standard removes two. */
  lemma SecondClimbIsLost()
    ensures Sanitised("/a/b/../../c") == "/a/c"
    ensures RemoveDotSegments("/a/b/../../c", "") == "/c"
  {
    var segs := ["a", "b", "..", "..", "c"];
    FivePath("a", "b", "..", "..", "c");
    assert Path(segs) == "/a/b/../../c";
    FiveNames(segs);
    LoneName("a");
    LoneName("c");
    PathAppend(["a"], ["c"]);
    assert ["a"] + ["c"] == ["a", "c"];
    assert "/a" + "/c" == "/a/c";
  }

  lemma FiveNames(segs: seq<string>)
    requires segs == ["a", "b", "..", "..", "c"]
    ensures Sanitised(Path(segs)) == Path(["a", "c"])
    ensures RemoveDotSegments(Path(segs), "") == Path(["c"])
  {
    SanitisedPath("", segs);
    assert "" + Path(segs) == Path(segs);
    WithoutNothing("", segs);
    WithoutNothing(".", segs);
    FiveClimb();
    assert "" + Path(["a", "c"]) == Path(["a", "c"]);
    ResolvePath(segs, []);
    FiveResolve();
  }

  lemma FivePath(a: string, b: string, c: string, d: string, e: string)
    ensures Path([a, b, c, d, e]) == "/" + a + "/" + b + "/" + c + "/" + d + "/" + e
  {
    PathSnoc("", [a, b, c, d], e);
    PathSnoc("", [a, b, c], d);
    PathSnoc("", [a, b], c);
    PathSnoc("", [a], b);
    LoneName(a);
    assert [a, b, c, d] + [e] == [a, b, c, d, e] && [a, b, c] + [d] == [a, b, c, d];
    assert [a, b] + [c] == [a, b, c] && [a] + [b] == [a, b];
    assert forall s: string :: "" + s == s;
  }

  lemma FiveClimb()
    ensures ClimbTo(["a", "b", "..", "..", "c"], "", [], false) == ("", ["a", "c"])
  {
    assert ["a", "b", "..", "..", "c"][1..] == ["b", "..", "..", "c"];
    assert ["b", "..", "..", "c"][1..] == ["..", "..", "c"];
    assert ["..", "..", "c"][1..] == ["..", "c"] && ["..", "c"][1..] == ["c"] && ["c"][1..] == [];
    assert ["a", "b"][..1] == ["a"] && ["a"] + ["b"] == ["a", "b"] && ["a"] + ["c"] == ["a", "c"];
    assert [] + ["a"] == ["a"];
    calc {
      ClimbTo(["a", "b", "..", "..", "c"], "", [], false);
      ClimbTo(["b", "..", "..", "c"], "", ["a"], false);
      ClimbTo(["..", "..", "c"], "", ["a", "b"], false);
      ClimbTo(["..", "c"], "", ["a"], true);
      ClimbTo(["c"], "", ["a"], true);
      ClimbTo([], "", ["a", "c"], false);
    }
  }

  lemma FiveResolve()
    ensures Resolved(["a", "b", "..", "..", "c"], []) == ["c"]
  {
    assert ["a", "b", "..", "..", "c"][1..] == ["b", "..", "..", "c"];
    assert ["b", "..", "..", "c"][1..] == ["..", "..", "c"];
    assert ["..", "..", "c"][1..] == ["..", "c"] && ["..", "c"][1..] == ["c"] && ["c"][1..] == [];
    assert ["a", "b"][..1] == ["a"] && ["a"] + ["b"] == ["a", "b"];
    assert [] + ["a"] == ["a"] && [] + ["c"] == ["c"] && ["a"][..0] == [];
    calc {
      Resolved(["a", "b", "..", "..", "c"], []);
      Resolved(["b", "..", "..", "c"], ["a"]);
      Resolved(["..", "..", "c"], ["a", "b"]);
      Resolved(["..", "c"], ["a"]);
      Resolved(["c"], []);
      Resolved([], ["c"]);
    }
  }
}
