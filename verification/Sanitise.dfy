/** _httpd_sanitiseUrl (libhttpd/protocol.c:668-723): three passes over a path, and what they
    amount to on its segments. */
module Sanitise {
  import opened Base
  import opened CStrings

  // ----- The three passes on text -----

  predicate Starts(s: string, pattern: string) {
    pattern <= s
  }

  /** A slash followed by a slash is dropped. */
  function Squeeze(s: string): string {
    if s == "" then ""
    else if Starts(s, "//") then Squeeze(s[1..])
    else [s[0]] + Squeeze(s[1..])
  }

  /** A slash and a dot followed by a slash are dropped. */
  function DropDots(s: string): string
    decreases |s|
  {
    if s == "" then ""
    else if Starts(s, "/./") then DropDots(s[2..])
    else [s[0]] + DropDots(s[1..])
  }

  /** At "/../" the output goes back to where its last slash was written. */
  function Climb(s: string, out: string, last: nat): string
    requires last <= |out|
    decreases |s|
  {
    if s == "" then out
    else if Starts(s, "/../") then Climb(s[3..], out[..last], last)
    else Climb(s[1..], out + [s[0]], if s[0] == '/' then |out| else last)
  }

  function Sanitised(s: string): string {
    Climb(DropDots(Squeeze(s)), "", 0)
  }

  // ----- Paths as segments -----

  predicate Name(s: string) {
    '/' !in s
  }

  predicate Names(segs: seq<string>) {
    forall i :: 0 <= i < |segs| ==> Name(segs[i])
  }

  function Path(segs: seq<string>): string {
    if segs == [] then "" else "/" + segs[0] + Path(segs[1..])
  }

  function Segments(s: string): (segs: seq<string>)
    decreases |s|
  {
    if '/' !in s then [s] else [Head(s, '/')] + Segments(Tail(s, '/'))
  }

  /** Every text is a first name followed by a path of names. */
  lemma {:induction false} SegmentsJoin(s: string)
    ensures var t := Segments(s);
            t != [] && Names(t) && s == t[0] + Path(t[1..])
    decreases |s|
  {
    if '/' in s {
      var rest := Tail(s, '/');
      SegmentsJoin(rest);
      JoinHead(Head(s, '/'), Segments(rest));
      assert s == Head(s, '/') + "/" + rest;
    }
  }

  lemma JoinHead(head: string, t: seq<string>)
    requires t != []
    ensures head + "/" + (t[0] + Path(t[1..])) == head + Path(t)
    ensures ([head] + t)[1..] == t
  {
  }

  lemma {:induction false} PathAppend(a: seq<string>, b: seq<string>)
    ensures Path(a + b) == Path(a) + Path(b)
  {
    if a == [] {
      assert a + b == b;
    } else {
      assert (a + b)[1..] == a[1..] + b;
      PathAppend(a[1..], b);
    }
  }

  /** A path determines its names. */
  lemma {:induction false} PathInjective(a: seq<string>, b: seq<string>)
    requires Names(a) && Names(b) && Path(a) == Path(b)
    ensures a == b
  {
    if a == [] || b == [] {
    } else {
      var s, t := a[0] + Path(a[1..]), b[0] + Path(b[1..]);
      assert Path(a)[1..] == s && Path(b)[1..] == t;
      NameEnds(a[0], a[1..]);
      NameEnds(b[0], b[1..]);
      assert a[0] == s[..|a[0]|] == b[0];
      assert Path(a[1..]) == s[|a[0]|..] == Path(b[1..]);
      PathInjective(a[1..], b[1..]);
    }
  }

  lemma NameEnds(name: string, rest: seq<string>)
    requires Name(name)
    ensures Until(name + Path(rest), '/') == |name|
  {
    assert (name + Path(rest))[..|name|] == name;
    UntilIs(name + Path(rest), '/', |name|);
  }

  // ----- The passes on segments -----

  /** The segments with `drop` removed everywhere but at the end. */
  function Without(drop: string, segs: seq<string>): seq<string> {
    if |segs| <= 1 then segs
    else if segs[0] == drop then Without(drop, segs[1..])
    else [segs[0]] + Without(drop, segs[1..])
  }

  lemma {:induction false} SqueezeName(name: string, t: string)
    requires Name(name)
    ensures Squeeze(name + t) == name + Squeeze(t)
  {
    if name == "" {
      assert name + t == t;
    } else {
      assert name[0] != '/';
      assert (name + t)[1..] == name[1..] + t;
      SqueezeName(name[1..], t);
    }
  }

  lemma {:induction false} SqueezePath(segs: seq<string>)
    requires Names(segs)
    ensures Squeeze(Path(segs)) == Path(Without("", segs))
  {
    if segs != [] {
      var name, rest := segs[0], Path(segs[1..]);
      var s := Path(segs);
      assert s == "/" + (name + rest) && s[1..] == name + rest;
      SqueezePath(segs[1..]);
      SqueezeName(name, rest);
      if name == "" && |segs| > 1 {
        assert s[..2] == "//";
        assert name + rest == rest;
      } else {
        assert !Starts(s, "//");
        assert Squeeze(s) == "/" + (name + Squeeze(rest));
        if |segs| == 1 {
          assert rest == "";
        }
      }
    }
  }

  lemma {:induction false} DropDotsName(name: string, t: string)
    requires Name(name)
    ensures DropDots(name + t) == name + DropDots(t)
  {
    if name == "" {
      assert name + t == t;
    } else {
      assert name[0] != '/';
      assert (name + t)[1..] == name[1..] + t;
      DropDotsName(name[1..], t);
    }
  }

  /** "/x/" begins a path exactly when x is its first name and another follows. */
  lemma StartsIff(segs: seq<string>, x: string)
    requires Names(segs) && Name(x) && segs != []
    ensures Starts(Path(segs), "/" + x + "/") <==> segs[0] == x && |segs| > 1
  {
    if Starts(Path(segs), "/" + x + "/") {
      StartsOnlyIf(segs[0], segs[1..], x);
    }
    if segs[0] == x && |segs| > 1 {
      FirstStarts(segs);
    }
  }

  lemma StartsOnlyIf(name: string, rest: seq<string>, x: string)
    requires Name(name) && Name(x) && Starts("/" + name + Path(rest), "/" + x + "/")
    ensures name == x && rest != []
  {
    var t := name + Path(rest);
    assert "/" + name + Path(rest) == "/" + t;
    StartsFirst(t, x);
    NameEnds(name, rest);
    assert t[..|name|] == name;
  }

  lemma StartsFirst(t: string, x: string)
    requires Name(x) && Starts("/" + t, "/" + x + "/")
    ensures |x| < |t| && t[..|x|] == x && Until(t, '/') == |x|
  {
    var s, pattern := "/" + t, "/" + x + "/";
    forall i | 0 <= i < |x| ensures i < |t| && t[i] == x[i] {
      assert s[i + 1] == pattern[i + 1];
    }
    assert s[|x| + 1] == pattern[|x| + 1] == '/';
    FirstUntil(t, x);
  }

  lemma FirstUntil(t: string, x: string)
    requires Name(x) && |x| < |t| && t[|x|] == '/' && forall i :: 0 <= i < |x| ==> t[i] == x[i]
    ensures t[..|x|] == x && Until(t, '/') == |x|
  {
    assert t[..|x|] == x;
    UntilIs(t, '/', |x|);
  }

  lemma FirstStarts(segs: seq<string>)
    requires |segs| > 1
    ensures Path(segs) == "/" + segs[0] + "/" + (segs[1] + Path(segs[2..]))
  {
    assert segs[1..][1..] == segs[2..];
    assert Path(segs[1..]) == "/" + segs[1] + Path(segs[2..]);
  }

  lemma {:induction false} DropDotsPath(segs: seq<string>)
    requires Names(segs)
    ensures DropDots(Path(segs)) == Path(Without(".", segs))
    decreases |segs|
  {
    if segs != [] {
      var name, rest := segs[0], Path(segs[1..]);
      var s := Path(segs);
      assert s == "/" + (name + rest) && s[1..] == name + rest;
      StartsIff(segs, ".");
      assert "/" + "." + "/" == "/./";
      DropDotsPath(segs[1..]);
      DropDotsName(name, rest);
      if name == "." && |segs| > 1 {
        assert s[2..] == rest;
      } else {
        assert DropDots(s) == "/" + (name + DropDots(rest));
        if |segs| == 1 {
          assert rest == "";
        }
      }
    }
  }

  /** What Climb leaves of a first name and a stack of names. After a climb the mark `last` stays
      put, so a second ".." in a row removes nothing. */
  function ClimbTo(segs: seq<string>, first: string, stack: seq<string>, popped: bool): (string, seq<string>) {
    if segs == [] then (first, stack)
    else if segs[0] == ".." && |segs| > 1 then
      if popped then ClimbTo(segs[1..], first, stack, true)
      else if stack != [] then ClimbTo(segs[1..], first, stack[..|stack| - 1], true)
      else ClimbTo(segs[1..], "", [], true)
    else ClimbTo(segs[1..], first, stack + [segs[0]], false)
  }

  /** Where `last` points: at the end after a climb, else before the newest name. */
  function LastAt(first: string, stack: seq<string>, popped: bool): nat {
    if popped then |first + Path(stack)|
    else if stack == [] then 0
    else |first + Path(stack[..|stack| - 1])|
  }

  lemma {:induction false} ClimbName(name: string, t: string, out: string, last: nat)
    requires Name(name) && last <= |out|
    ensures Climb(name + t, out, last) == Climb(t, out + name, last)
    decreases |name|
  {
    if name == "" {
      assert name + t == t && out + name == out;
    } else {
      assert name[0] != '/';
      assert (name + t)[1..] == name[1..] + t;
      assert out + [name[0]] + name[1..] == out + name;
      ClimbName(name[1..], t, out + [name[0]], last);
    }
  }

  lemma PathSnoc(first: string, stack: seq<string>, name: string)
    ensures first + Path(stack + [name]) == first + Path(stack) + "/" + name
  {
    PathAppend(stack, [name]);
    assert Path([name]) == "/" + name + "";
  }

  /** What a climb leaves in front of the mark. */
  function Kept(first: string, stack: seq<string>, popped: bool): string {
    if popped then first + Path(stack)
    else if stack == [] then ""
    else first + Path(stack[..|stack| - 1])
  }

  lemma KeptIsBeforeLast(first: string, stack: seq<string>, popped: bool)
    ensures Kept(first, stack, popped) <= first + Path(stack)
    ensures LastAt(first, stack, popped) == |Kept(first, stack, popped)|
  {
    if !popped && stack != [] {
      PushedAfter(first, stack[..|stack| - 1], stack[|stack| - 1], stack);
    }
  }

  lemma PushedAfter(first: string, rest: seq<string>, name: string, stack: seq<string>)
    requires stack == rest + [name]
    ensures first + Path(rest) <= first + Path(stack)
  {
    PathSnoc(first, rest, name);
  }

  lemma {:induction false} ClimbPath(segs: seq<string>, first: string, stack: seq<string>, popped: bool)
    requires Names(segs)
    ensures LastAt(first, stack, popped) <= |first + Path(stack)|
    ensures var (f, st) := ClimbTo(segs, first, stack, popped);
            Climb(Path(segs), first + Path(stack), LastAt(first, stack, popped)) == f + Path(st)
    decreases |segs|, 1
  {
    KeptIsBeforeLast(first, stack, popped);
    if segs != [] {
      StartsIff(segs, "..");
      assert "/" + ".." + "/" == "/../";
      if segs[0] == ".." && |segs| > 1 {
        ClimbPop(segs, first, stack, popped);
      } else {
        ClimbPush(segs, first, stack, popped);
      }
    }
  }

  lemma ClimbPush(segs: seq<string>, first: string, stack: seq<string>, popped: bool)
    requires segs != [] && Names(segs) && !Starts(Path(segs), "/../")
    requires LastAt(first, stack, popped) <= |first + Path(stack)|
    ensures var (f, st) := ClimbTo(segs[1..], first, stack + [segs[0]], false);
            Climb(Path(segs), first + Path(stack), LastAt(first, stack, popped)) == f + Path(st)
    decreases |segs|, 0
  {
    ClimbOne(segs[0], Path(segs[1..]), first + Path(stack), LastAt(first, stack, popped));
    PathSnoc(first, stack, segs[0]);
    assert (stack + [segs[0]])[..|stack|] == stack;
    ClimbPath(segs[1..], first, stack + [segs[0]], false);
  }

  lemma ClimbOne(name: string, rest: string, out: string, last: nat)
    requires Name(name) && last <= |out| && !Starts("/" + name + rest, "/../")
    ensures Climb("/" + name + rest, out, last) == Climb(rest, out + "/" + name, |out|)
  {
    var s := "/" + name + rest;
    assert s[0] == '/' && s[1..] == name + rest;
    assert Climb(s, out, last) == Climb(name + rest, out + "/", |out|);
    ClimbName(name, rest, out + "/", |out|);
  }

  lemma ClimbPop(segs: seq<string>, first: string, stack: seq<string>, popped: bool)
    requires Names(segs) && |segs| > 1 && segs[0] == ".." && Starts(Path(segs), "/../")
    requires LastAt(first, stack, popped) <= |first + Path(stack)|
    ensures var (f, st) := ClimbTo(segs, first, stack, popped);
            Climb(Path(segs), first + Path(stack), LastAt(first, stack, popped)) == f + Path(st)
    decreases |segs|, 0
  {
    var rest, s := Path(segs[1..]), Path(segs);
    var out, last := first + Path(stack), LastAt(first, stack, popped);
    KeptIsBeforeLast(first, stack, popped);
    assert s == "/" + (".." + rest);
    assert s[3..] == rest;
    assert out[..last] == Kept(first, stack, popped);
    if popped {
      ClimbPath(segs[1..], first, stack, true);
    } else if stack != [] {
      ClimbPath(segs[1..], first, stack[..|stack| - 1], true);
    } else {
      assert "" + Path([]) == "";
      ClimbPath(segs[1..], "", [], true);
    }
  }

  // ----- The passes in the buffer itself -----

  /** The buffer holds a text and its terminator. */
  ghost predicate Holds(url: array<char>, s: string)
    reads url
  {
    |s| < url.Length && url[|s|] == NUL && url[..|s|] == s && forall j :: 0 <= j < |s| ==> s[j] != NUL
  }

  /** What is left to read is still intact and the write position has not passed it. */
  ghost predicate Reading(url: array<char>, s: string, from: nat, to: nat)
    reads url
  {
    && to <= from <= |s| < url.Length && url[|s|] == NUL
    && forall j :: from <= j < |s| ==> url[j] == s[j] && url[j] != NUL
  }

  lemma Ahead(url: array<char>, s: string, from: nat, to: nat, pattern: string)
    requires Reading(url, s, from, to) && NUL !in pattern
    ensures Starts(s[from..], pattern) <==>
            from + |pattern| <= |s| && forall i :: 0 <= i < |pattern| ==> url[from + i] == pattern[i]
  {
    if Starts(s[from..], pattern) {
      assert forall i :: 0 <= i < |pattern| ==> url[from + i] == s[from + i] == s[from..][i] == pattern[i];
    }
    if from + |pattern| <= |s| && forall i :: 0 <= i < |pattern| ==> url[from + i] == pattern[i] {
      assert s[from..][..|pattern|] == pattern;
    }
  }

  /** One step of each pass, read off the rest of the text. */
  lemma StepAt(s: string, from: nat)
    requires from < |s|
    ensures Squeeze(s[from..]) ==
            if Starts(s[from..], "//") then Squeeze(s[from + 1..]) else [s[from]] + Squeeze(s[from + 1..])
    ensures DropDots(s[from..]) ==
            if Starts(s[from..], "/./") then DropDots(s[from + 2..]) else [s[from]] + DropDots(s[from + 1..])
  {
    assert s[from..][1..] == s[from + 1..];
    if Starts(s[from..], "/./") {
      assert s[from..][2..] == s[from + 2..];
    }
  }

  lemma ClimbAt(s: string, from: nat, out: string, last: nat)
    requires from < |s| && last <= |out|
    ensures Climb(s[from..], out, last) ==
            if Starts(s[from..], "/../") then Climb(s[from + 3..], out[..last], last)
            else Climb(s[from + 1..], out + [s[from]], if s[from] == '/' then |out| else last)
  {
    assert s[from..][1..] == s[from + 1..];
    if Starts(s[from..], "/../") {
      assert s[from..][3..] == s[from + 3..];
    }
  }

  /** What has been written so far. */
  ghost predicate Written(url: array<char>, out: string, to: nat)
    reads url
  {
    to == |out| <= url.Length && forall j :: 0 <= j < to ==> url[j] == out[j] && out[j] != NUL
  }

  method CopyDown(url: array<char>, ghost s: string, ghost out: string, from: nat, to: nat)
    requires Reading(url, s, from, to) && Written(url, out, to) && from < |s|
    modifies url
    ensures Reading(url, s, from + 1, to + 1) && Written(url, out + [s[from]], to + 1)
  {
    url[to] := url[from];
  }

  /** The terminator ends what was written. */
  method Terminate(url: array<char>, ghost s: string, ghost out: string, from: nat, to: nat)
    requires Reading(url, s, from, to) && Written(url, out, to)
    modifies url
    ensures Holds(url, out)
  {
    url[to] := NUL;
    assert url[..to] == out;
  }

  method SqueezeInPlace(url: array<char>, ghost s: string)
    requires Holds(url, s)
    modifies url
    ensures Holds(url, Squeeze(s))
  {
    var from, to := 0, 0;
    ghost var out: string := "";
    assert s[0..] == s;
    while url[from] != NUL
      invariant Reading(url, s, from, to) && Written(url, out, to)
      invariant out + Squeeze(s[from..]) == Squeeze(s)
      decreases |s| - from
    {
      Ahead(url, s, from, to, "//");
      StepAt(s, from);
      if url[from] == '/' && url[from + 1] == '/' {
        from := from + 1;
      } else {
        Assoc(out, [s[from]], Squeeze(s[from + 1..]));
        CopyDown(url, s, out, from, to);
        out := out + [s[from]];
        to, from := to + 1, from + 1;
      }
    }
    assert s[from..] == "";
    assert out + "" == out;
    Terminate(url, s, out, from, to);
  }

  method DropDotsInPlace(url: array<char>, ghost s: string)
    requires Holds(url, s)
    modifies url
    ensures Holds(url, DropDots(s))
  {
    var from, to := 0, 0;
    ghost var out: string := "";
    assert s[0..] == s;
    while url[from] != NUL
      invariant Reading(url, s, from, to) && Written(url, out, to)
      invariant out + DropDots(s[from..]) == DropDots(s)
      decreases |s| - from
    {
      Ahead(url, s, from, to, "/./");
      StepAt(s, from);
      if url[from] == '/' && url[from + 1] == '.' && url[from + 2] == '/' {
        from := from + 2;
      } else {
        Assoc(out, [s[from]], DropDots(s[from + 1..]));
        CopyDown(url, s, out, from, to);
        out := out + [s[from]];
        to, from := to + 1, from + 1;
      }
    }
    assert s[from..] == "";
    assert out + "" == out;
    Terminate(url, s, out, from, to);
  }

  method ClimbInPlace(url: array<char>, ghost s: string)
    requires Holds(url, s)
    modifies url
    ensures Holds(url, Climb(s, "", 0))
  {
    var from, to, last := 0, 0, 0;
    ghost var out: string := "";
    assert s[0..] == s;
    while url[from] != NUL
      invariant Reading(url, s, from, to) && Written(url, out, to) && last <= to
      invariant Climb(s[from..], out, last) == Climb(s, "", 0)
      decreases |s| - from
    {
      Ahead(url, s, from, to, "/../");
      ClimbAt(s, from, out, last);
      if url[from] == '/' && url[from + 1] == '.' && url[from + 2] == '.' && url[from + 3] == '/' {
        out := out[..last];
        to, from := last, from + 3;
      } else {
        if url[from] == '/' {
          last := to;
        }
        CopyDown(url, s, out, from, to);
        out := out + [s[from]];
        to, from := to + 1, from + 1;
      }
    }
    assert s[from..] == "";
    Terminate(url, s, out, from, to);
  }

  method SanitiseUrl(url: array<char>, ghost s: string)
    requires Holds(url, s)
    modifies url
    ensures Holds(url, Sanitised(s))
  {
    SqueezeInPlace(url, s);
    DropDotsInPlace(url, Squeeze(s));
    ClimbInPlace(url, DropDots(Squeeze(s)));
  }
}
