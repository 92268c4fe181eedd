/** POSIX path text and its components.  The model keeps paths as component sequences; the lemmas
    here are why the source's string tests (`==`, `startswith(target + "/")`) mean the same. */
module Paths {

  type Path = seq<string>

  function Segments(s: string): (parts: seq<string>)
    ensures |parts| > 0
    decreases |s|
  {
    if s == "" then [""]
    else if s[0] == '/' then [""] + Segments(s[1..])
    else
      var rest := Segments(s[1..]);
      [[s[0]] + rest[0]] + rest[1..]
  }

  function Join(parts: seq<string>): string {
    if parts == [] then ""
    else if |parts| == 1 then parts[0]
    else parts[0] + "/" + Join(parts[1..])
  }

  predicate Slashless(parts: seq<string>) {
    forall part :: part in parts ==> '/' !in part
  }

  predicate Plain(part: string) {
    part != "" && part != "." && part != ".." && '/' !in part
  }

  predicate AllPlain(parts: seq<string>) {
    forall part :: part in parts ==> Plain(part)
  }

  lemma {:induction false} SegmentsConcat(a: string, b: string)
    ensures Segments(a + "/" + b) == Segments(a) + Segments(b)
    decreases |a|
  {
    if a == "" {
      assert (a + "/" + b)[1..] == b;
    } else {
      assert (a + "/" + b)[1..] == a[1..] + "/" + b;
      SegmentsConcat(a[1..], b);
    }
  }

  lemma {:induction false} SegmentsSlashless(s: string)
    requires '/' !in s
    ensures Segments(s) == [s]
    decreases |s|
  {
    if s != "" {
      SegmentsSlashless(s[1..]);
      assert [s[0]] + s[1..] == s;
    }
  }

  /** Splitting undoes joining. */
  lemma {:induction false} SegmentsJoin(p: Path)
    requires p != [] && Slashless(p)
    ensures Segments(Join(p)) == p
  {
    SegmentsSlashless(p[0]);
    if |p| > 1 {
      SegmentsConcat(p[0], Join(p[1..]));
      SegmentsJoin(p[1..]);
    } else {
      assert p == [p[0]];
    }
  }

  /** Joining undoes splitting, and a split never contains a slash. */
  lemma {:induction false} JoinSegments(s: string)
    ensures Join(Segments(s)) == s && Slashless(Segments(s))
    decreases |s|
  {
    if s != "" {
      JoinSegments(s[1..]);
      var rest := Segments(s[1..]);
      if s[0] == '/' {
        assert Segments(s)[1..] == rest;
        assert s == "" + "/" + s[1..];
      } else {
        assert Segments(s)[1..] == rest[1..];
        assert s == [s[0]] + s[1..];
        if |rest| > 1 {
          assert ([s[0]] + rest[0]) + "/" + Join(rest[1..]) == [s[0]] + (rest[0] + "/" + Join(rest[1..]));
        }
      }
    }
  }

  lemma {:induction false} JoinConcat(p: Path, q: Path)
    requires p != [] && q != []
    ensures Join(p + q) == Join(p) + "/" + Join(q)
  {
    assert (p + q)[1..] == p[1..] + q;
    if |p| == 1 {
      assert p + q == [p[0]] + q;
    } else {
      JoinConcat(p[1..], q);
      assert p[0] + "/" + (Join(p[1..]) + "/" + Join(q)) == (p[0] + "/" + Join(p[1..])) + "/" + Join(q);
    }
  }

  /** `item == target or item.startswith(target + "/")` is exactly component prefix. */
  lemma TextPrefixIsComponentPrefix(target: Path, item: Path)
    requires target != [] && item != [] && Slashless(target) && Slashless(item)
    ensures Join(item) == Join(target) || Join(target) + "/" <= Join(item) <==> target <= item
  {
    SegmentsJoin(target);
    SegmentsJoin(item);
    if Join(target) + "/" <= Join(item) {
      var rest := Join(item)[|Join(target)| + 1..];
      assert Join(item) == Join(target) + "/" + rest;
      SegmentsConcat(Join(target), rest);
    }
    if target < item {
      var rest := item[|target|..];
      assert item == target + rest;
      JoinConcat(target, rest);
    }
  }

  // ---- PurePosixPath ----

  /** `PurePosixPath(s).parts` without the root: empty and `.` segments disappear. */
  function Parts(s: string): (parts: seq<string>) {
    Meaningful(Segments(s))
  }

  function Meaningful(segments: seq<string>): (parts: seq<string>) {
    if segments == [] then []
    else if segments[0] == "" || segments[0] == "." then Meaningful(segments[1..])
    else [segments[0]] + Meaningful(segments[1..])
  }

  predicate IsAbsolute(s: string) {
    s != "" && s[0] == '/'
  }

  /** `PurePosixPath(s).as_posix()` of a relative path. */
  function AsPosix(s: string): string {
    if Parts(s) == [] then "." else Join(Parts(s))
  }

  /** The guard of `_archive_member_name`. */
  predicate SafeMember(s: string) {
    && !IsAbsolute(s)
    && ".." !in Parts(s)
    && AsPosix(s) == s
    && !(s != "" && s[|s| - 1] == '/')
  }

  lemma {:induction false} MeaningfulPlain(segments: seq<string>)
    requires Slashless(segments)
    ensures Slashless(Meaningful(segments))
    ensures forall part :: part in Meaningful(segments) ==> part in segments && part != "" && part != "."
    ensures (forall part :: part in segments ==> part != "" && part != ".") ==> Meaningful(segments) == segments
  {
    if segments != [] {
      assert segments == [segments[0]] + segments[1..];
      assert forall part :: part in segments[1..] ==> part in segments;
      assert segments[0] in segments;
      MeaningfulPlain(segments[1..]);
    }
  }

  lemma TrailingSlash(s: string)
    requires s != "" && s[|s| - 1] == '/'
    ensures "" in Segments(s)
  {
    SegmentsConcat(s[..|s| - 1], "");
    assert s == s[..|s| - 1] + "/" + "";
    assert Segments(s)[|Segments(s)| - 1] == "";
  }

  lemma PlainSegmentsAreSafe(s: string)
    requires AllPlain(Segments(s))
    ensures SafeMember(s) && Parts(s) == Segments(s)
  {
    JoinSegments(s);
    MeaningfulPlain(Segments(s));
    assert Parts(s) == Segments(s);
    assert !Plain("") && !Plain("..");
    if s != "" && s[|s| - 1] == '/' {
      TrailingSlash(s);
    }
  }

  lemma SafeSegmentsArePlain(s: string)
    requires SafeMember(s) && s != "."
    ensures AllPlain(Segments(s))
  {
    JoinSegments(s);
    MeaningfulPlain(Segments(s));
    SegmentsJoin(Parts(s));
    assert Parts(s) == Segments(s);
  }

  /** A member name is accepted exactly when it is `.` or a nonempty list of plain components,
      so an accepted name is its own normal form. */
  lemma SafeMemberIsCanonical(s: string)
    ensures SafeMember(s) <==> s == "." || AllPlain(Segments(s))
    ensures SafeMember(s) && s != "." ==> Parts(s) == Segments(s)
  {
    if s == "." {
      SegmentsSlashless(s);
      assert ["."][1..] == [];
      assert Meaningful(["."]) == [];
    } else {
      if SafeMember(s) {
        SafeSegmentsArePlain(s);
      }
      if AllPlain(Segments(s)) {
        PlainSegmentsAreSafe(s);
      }
    }
  }
}
