/** The documentation gate's lexical path normaliser, on strings, against a stack of segments. */
module NormPath {

  // ---------------------------------------------------------------- segments

  /** The fields of a path between slashes; never none. */
  function Segments(p: string): (r: seq<string>)
    ensures r != []
  {
    if p == "" then [""]
    else
      var rest := Segments(p[1..]);
      if p[0] == '/' then [""] + rest else [[p[0]] + rest[0]] + rest[1..]
  }

  function Join(st: seq<string>): string {
    if st == [] then ""
    else if |st| == 1 then st[0]
    else Join(st[..|st| - 1]) + "/" + st[|st| - 1]
  }

  /** Reads one segment: skips empty and '.', lets '..' drop the last one, and nothing at the root. */
  function Push(st: seq<string>, part: string): seq<string> {
    if part == "" || part == "." then st
    else if part == ".." then (if st == [] then [] else st[..|st| - 1])
    else st + [part]
  }

  function Stack(st: seq<string>, parts: seq<string>): seq<string> {
    if parts == [] then st else Push(Stack(st, parts[..|parts| - 1]), parts[|parts| - 1])
  }

  predicate Plain(part: string) {
    part != "" && part != "." && part != ".." && '/' !in part
  }

  predicate AllPlain(st: seq<string>) {
    forall i :: 0 <= i < |st| ==> Plain(st[i])
  }

  function Norm(p: string): string {
    Join(Stack([], Segments(p)))
  }

  // ---------------------------------------------------------------- splitting and joining

  lemma {:induction false} SegmentsHaveNoSlash(p: string)
    ensures forall i :: 0 <= i < |Segments(p)| ==> '/' !in Segments(p)[i]
  {
    if p != "" {
      SegmentsHaveNoSlash(p[1..]);
    }
  }

  lemma {:induction false} SegmentsOfPlain(part: string)
    requires '/' !in part
    ensures Segments(part) == [part]
  {
    if part != "" {
      SegmentsOfPlain(part[1..]);
      assert [part[0]] + part[1..] == part;
    }
  }

  lemma {:induction false} SegmentsAppend(a: string, b: string)
    ensures Segments(a + "/" + b) == Segments(a) + Segments(b)
  {
    if a == "" {
      assert (a + "/" + b)[1..] == b;
    } else {
      assert (a + "/" + b)[1..] == a[1..] + "/" + b;
      SegmentsAppend(a[1..], b);
    }
  }

  lemma {:induction false} SegmentsOfJoin(st: seq<string>)
    requires AllPlain(st)
    ensures Segments(Join(st)) == if st == [] then [""] else st
  {
    if |st| == 1 {
      SegmentsOfPlain(st[0]);
    } else if |st| > 1 {
      SegmentsOfJoin(st[..|st| - 1]);
      SegmentsAppend(Join(st[..|st| - 1]), st[|st| - 1]);
      SegmentsOfPlain(st[|st| - 1]);
    }
  }

  // ---------------------------------------------------------------- the stack

  /** What is left on the stack holds no '.', '..', empty segment or slash. */
  lemma {:induction false} StackIsPlain(st: seq<string>, parts: seq<string>)
    requires AllPlain(st) && forall i :: 0 <= i < |parts| ==> '/' !in parts[i]
    ensures AllPlain(Stack(st, parts))
  {
    if parts != [] {
      StackIsPlain(st, parts[..|parts| - 1]);
    }
  }

  lemma {:induction false} StackAppend(st: seq<string>, a: seq<string>, b: seq<string>)
    ensures Stack(st, a + b) == Stack(Stack(st, a), b)
  {
    if b == [] {
      assert a + b == a;
    } else {
      assert (a + b)[..|a + b| - 1] == a + b[..|b| - 1];
      StackAppend(st, a, b[..|b| - 1]);
    }
  }

  lemma {:induction false} StackOfPlain(st: seq<string>)
    requires AllPlain(st)
    ensures Stack([], st) == st
  {
    if st != [] {
      StackOfPlain(st[..|st| - 1]);
      assert st == st[..|st| - 1] + [st[|st| - 1]];
    }
  }

  lemma NormIsPlain(p: string)
    ensures AllPlain(Stack([], Segments(p)))
    ensures Stack([], Segments(Norm(p))) == Stack([], Segments(p))
  {
    SegmentsHaveNoSlash(p);
    StackIsPlain([], Segments(p));
    var st := Stack([], Segments(p));
    SegmentsOfJoin(st);
    if st == [] {
      assert Stack([], [""]) == Push(Stack([], [""][..0]), "");
    } else {
      StackOfPlain(st);
    }
  }

  /** Normalising is idempotent, and leaves only plain segments. */
  lemma NormIdempotent(p: string)
    ensures Norm(Norm(p)) == Norm(p)
    ensures Norm(p) != "" ==> AllPlain(Segments(Norm(p)))
  {
    NormIsPlain(p);
    SegmentsOfJoin(Stack([], Segments(p)));
  }

  /** The directory part may be normalised first. */
  lemma NormComposes(a: string, b: string)
    ensures Norm(a + "/" + b) == Norm(Norm(a) + "/" + b)
  {
    SegmentsAppend(a, b);
    SegmentsAppend(Norm(a), b);
    StackAppend([], Segments(a), Segments(b));
    StackAppend([], Segments(Norm(a)), Segments(b));
    NormIsPlain(a);
  }

  // ---------------------------------------------------------------- what each kind of segment does

  lemma LastSegment(a: string, x: string)
    requires '/' !in x
    ensures Stack([], Segments(a + "/" + x)) == Push(Stack([], Segments(a)), x)
  {
    SegmentsAppend(a, x);
    SegmentsOfPlain(x);
    StackAppend([], Segments(a), [x]);
    assert Stack(Stack([], Segments(a)), [x][..0]) == Stack([], Segments(a));
  }

  /** A plain segment is added at the end. */
  lemma NormPushes(a: string, x: string)
    requires Plain(x)
    ensures Norm(a + "/" + x) == if Norm(a) == "" then x else Norm(a) + "/" + x
  {
    var st := Stack([], Segments(a));
    LastSegment(a, x);
    NormIsPlain(a);
    JoinEmptyIff(st);
    assert (st + [x])[..|st|] == st;
  }

  lemma DotsPop(b: string)
    ensures Stack([], Segments(b + "/..")) == Push(Stack([], Segments(b)), "..")
  {
    LastSegment(b, "..");
    assert b + "/" + ".." == b + "/..";
  }

  lemma PushPops(st: seq<string>, x: string)
    requires Plain(x)
    ensures Push(Push(st, x), "..") == st
  {
    assert (st + [x])[..|st + [x]| - 1] == st;
  }

  /** '..' undoes exactly the plain segment before it. */
  lemma NormPops(a: string, x: string)
    requires Plain(x)
    ensures Norm(a + "/" + x + "/..") == Norm(a)
  {
    var b := a + "/" + x;
    LastSegment(a, x);
    DotsPop(b);
    PushPops(Stack([], Segments(a)), x);
  }

  /** '..' at the root stays there. */
  lemma NormAtRoot(a: string)
    requires Norm(a) == ""
    ensures Norm(a + "/..") == ""
  {
    DotsPop(a);
    NormIsPlain(a);
    JoinEmptyIff(Stack([], Segments(a)));
  }

  /** '.' and empty segments do nothing. */
  lemma NormSkips(a: string)
    ensures Norm(a + "/.") == Norm(a + "/") == Norm(a)
  {
    LastSegment(a, ".");
    LastSegment(a, "");
    assert a + "/" + "." == a + "/." && a + "/" + "" == a + "/";
  }

  /** A path of one segment. */
  lemma NormOfOne(x: string)
    requires '/' !in x
    ensures Norm(x) == if x == "" || x == "." || x == ".." then "" else x
  {
    SegmentsOfPlain(x);
    assert Stack([], [x]) == Push(Stack([], [x][..0]), x);
  }

  // ---------------------------------------------------------------- on strings

  /** Everything before the last slash. */
  function StripLast(s: string): string
    requires '/' in s
  {
    if s[|s| - 1] == '/' then s[..|s| - 1] else StripLast(s[..|s| - 1])
  }

  lemma {:induction false} StripAfterSlash(a: string, b: string)
    requires '/' !in b
    ensures '/' in a + "/" + b && StripLast(a + "/" + b) == a
  {
    var s := a + "/" + b;
    assert s[|a|] == '/';
    if b == "" {
      assert s[..|s| - 1] == a;
    } else {
      assert s[|s| - 1] == b[|b| - 1];
      assert s[..|s| - 1] == a + "/" + b[..|b| - 1];
      StripAfterSlash(a, b[..|b| - 1]);
    }
  }

  /** What one turn of the loop does to the path built so far. */
  function PushString(out: string, part: string): string {
    if part == "" || part == "." then out
    else if part == ".." then (if '/' in out then StripLast(out) else "")
    else if out != "" then out + "/" + part
    else part
  }

  /** Cutting the string at its last slash is popping the stack. */
  lemma PushRefines(st: seq<string>, part: string)
    requires AllPlain(st)
    ensures PushString(Join(st), part) == Join(Push(st, part))
  {
    if part == ".." {
      if |st| == 1 {
        assert Plain(st[0]);
      } else if |st| > 1 {
        assert Plain(st[|st| - 1]);
        StripAfterSlash(Join(st[..|st| - 1]), st[|st| - 1]);
      }
    } else if part != "" && part != "." {
      JoinEmptyIff(st);
      assert (st + [part])[..|st|] == st;
    }
  }

  lemma JoinEmptyIff(st: seq<string>)
    requires AllPlain(st)
    ensures Join(st) == "" <==> st == []
  {
    if |st| == 1 {
      assert Plain(st[0]);
    }
  }

  /** The gate's loop, popping on the string itself. */
  method Normalise(p: string) returns (out: string)
    ensures out == Norm(p)
  {
    out := "";
    var parts := Segments(p);
    SegmentsHaveNoSlash(p);
    for i := 0 to |parts|
      invariant AllPlain(Stack([], parts[..i]))
      invariant out == Join(Stack([], parts[..i]))
    {
      assert parts[..i + 1][..i] == parts[..i];
      PushRefines(Stack([], parts[..i]), parts[i]);
      StackIsPlain([], parts[..i + 1]);
      var part := parts[i];
      if part == "" || part == "." {
      } else if part == ".." {
        if '/' in out {
          out := StripLast(out);
        } else {
          out := "";
        }
      } else if out != "" {
        out := out + "/" + part;
      } else {
        out := part;
      }
    }
    assert parts[..|parts|] == parts;
  }
}
