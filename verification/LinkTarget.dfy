/** `_link_target`: the archive path that a symbolic or hard link names. */
module LinkTarget {
  import opened Common
  import opened Paths

  datatype LinkError = EmptyLink | EscapesArchive

  /** Reads `parts` left to right on top of `stack`; None when a `..` meets an empty stack. */
  function Reduce(stack: Path, parts: seq<string>): (r: Option<Path>)
    decreases |parts|
  {
    if parts == [] then Some(stack)
    else if parts[0] == "" || parts[0] == "." then Reduce(stack, parts[1..])
    else if parts[0] == ".." then
      if stack == [] then None else Reduce(stack[..|stack| - 1], parts[1..])
    else Reduce(stack + [parts[0]], parts[1..])
  }

  function Normalize(parts: seq<string>): Option<Path> {
    Reduce([], parts)
  }

  /** The components the link text stands for, before `..` is cancelled. */
  function Candidate(name: Path, target: string, hardlink: bool): seq<string> {
    if hardlink || IsAbsolute(target) || name == [] then Parts(target)
    else Meaningful(name[..|name| - 1]) + Parts(target)
  }

  function Target(name: Path, target: string, hardlink: bool, allowAbsolute: bool): Result<Path, LinkError> {
    if target == "" then Err(EmptyLink)
    else if IsAbsolute(target) && !allowAbsolute then Err(EscapesArchive)
    else
      match Normalize(Candidate(name, target, hardlink))
      case None => Err(EscapesArchive)
      case Some(p) => Ok(p)
  }

  method Compute(name: Path, target: string, hardlink: bool, allowAbsolute: bool)
    returns (r: Result<Path, LinkError>)
    ensures r == Target(name, target, hardlink, allowAbsolute)
  {
    if target == "" {
      return Err(EmptyLink);
    }
    if IsAbsolute(target) && !allowAbsolute {
      return Err(EscapesArchive);
    }
    var candidate := Candidate(name, target, hardlink);
    var parts: Path := [];
    var i := 0;
    while i < |candidate|
      invariant 0 <= i <= |candidate|
      invariant Normalize(candidate) == Reduce(parts, candidate[i..])
    {
      var part := candidate[i];
      assert candidate[i..][1..] == candidate[i + 1..];
      if part == "" || part == "." {
      } else if part == ".." {
        if parts == [] {
          return Err(EscapesArchive);
        }
        parts := parts[..|parts| - 1];
      } else {
        parts := parts + [part];
      }
      i := i + 1;
    }
    return Ok(parts);
  }

  // ---- What the result means ----

  /** How far below the root the reader stands after `parts`. */
  function Depth(parts: seq<string>): int {
    if parts == [] then 0
    else
      var last := parts[|parts| - 1];
      Depth(parts[..|parts| - 1]) + (if last == "" || last == "." then 0 else if last == ".." then -1 else 1)
  }

  predicate StaysInside(parts: seq<string>) {
    forall k :: 0 <= k <= |parts| ==> Depth(parts[..k]) >= 0
  }

  lemma {:induction false} ReduceConcat(stack: Path, a: seq<string>, b: seq<string>)
    ensures Reduce(stack, a + b) == match Reduce(stack, a) case None => None case Some(s) => Reduce(s, b)
    decreases |a|
  {
    if a == [] {
      assert a + b == b;
    } else {
      assert (a + b)[1..] == a[1..] + b;
      if a[0] == "" || a[0] == "." {
        ReduceConcat(stack, a[1..], b);
      } else if a[0] == ".." {
        if stack != [] {
          ReduceConcat(stack[..|stack| - 1], a[1..], b);
        }
      } else {
        ReduceConcat(stack + [a[0]], a[1..], b);
      }
    }
  }

  lemma ReduceLast(parts: seq<string>)
    requires parts != []
    ensures
      var init, last := parts[..|parts| - 1], parts[|parts| - 1];
      Normalize(parts) ==
        match Normalize(init)
        case None => None
        case Some(s) =>
          if last == "" || last == "." then Some(s)
          else if last == ".." then (if s == [] then None else Some(s[..|s| - 1]))
          else Some(s + [last])
  {
    var init, last := parts[..|parts| - 1], parts[|parts| - 1];
    assert parts == init + [last];
    ReduceConcat([], init, [last]);
    assert [last][1..] == [];
  }

  /** The result is a normal form: it has no empty, `.` or `..` part and invents no part. */
  lemma {:induction false} NormalizeIsNormal(parts: seq<string>)
    requires Normalize(parts).Some?
    ensures forall part :: part in Normalize(parts).value ==>
              part in parts && part != "" && part != "." && part != ".."
  {
    if parts != [] {
      var init, last := parts[..|parts| - 1], parts[|parts| - 1];
      assert parts == init + [last];
      ReduceLast(parts);
      NormalizeIsNormal(init);
      var s, p := Normalize(init).value, Normalize(parts).value;
      forall part | part in p
        ensures part in parts && part != "" && part != "." && part != ".."
      {
        if part !in s {
          assert part == last;
        } else {
          assert part in init;
        }
      }
    }
  }

  /** Normalisation fails exactly when some prefix climbs above the root; otherwise the result has
      as many parts as the depth reached. */
  lemma {:induction false} NormalizeMeaning(parts: seq<string>)
    ensures Normalize(parts).Some? <==> StaysInside(parts)
    ensures Normalize(parts).Some? ==> |Normalize(parts).value| == Depth(parts)
  {
    if parts != [] {
      var init := parts[..|parts| - 1];
      NormalizeMeaning(init);
      ReduceLast(parts);
      assert parts == init + [parts[|parts| - 1]];
      assert forall k :: 0 <= k <= |init| ==> init[..k] == parts[..k];
      assert parts[..|parts|] == parts;
      if StaysInside(parts) {
        forall k | 0 <= k <= |init| ensures Depth(init[..k]) >= 0 {
          assert Depth(parts[..k]) >= 0;
        }
        assert Depth(parts[..|parts|]) >= 0;
      }
      if Normalize(parts).Some? {
        forall k | 0 <= k <= |parts| ensures Depth(parts[..k]) >= 0 {
          if k <= |init| {
            assert Depth(init[..k]) >= 0;
          }
        }
      }
    } else {
      assert forall k :: 0 <= k <= |parts| ==> parts[..k] == [];
    }
  }

  /** A name followed by `..` cancels anywhere, and a `.` disappears anywhere. */
  lemma NormalizeCancels(a: seq<string>, x: string, b: seq<string>)
    requires x != "" && x != "." && x != ".."
    ensures Normalize(a + [x, ".."] + b) == Normalize(a + b)
    ensures Normalize(a + ["."] + b) == Normalize(a + b)
  {
    ReduceConcat([], a, b);
    ReduceConcat([], a + [x, ".."], b);
    ReduceConcat([], a, [x, ".."]);
    ReduceConcat([], a + ["."], b);
    ReduceConcat([], a, ["."]);
    match Normalize(a)
    case None =>
    case Some(s) =>
      assert [x, ".."][1..] == [".."];
      assert [".."][1..] == [] && ["."][1..] == [];
      assert (s + [x])[..|s + [x]| - 1] == s;
      assert Reduce(s, [x, ".."]) == Reduce(s + [x], [".."]) == Reduce(s, []);
  }

  lemma {:induction false} PlainIsFixed(stack: Path, p: Path)
    requires AllPlain(p)
    ensures Reduce(stack, p) == Some(stack + p)
    decreases |p|
  {
    if p == [] {
      assert stack + p == stack;
    } else {
      assert Plain(p[0]);
      PlainIsFixed(stack + [p[0]], p[1..]);
      assert stack + [p[0]] + p[1..] == stack + p;
    }
  }

  /** Together: a link to the absolute or archive-relative spelling of a stored path finds it,
      and normalising a normal form changes nothing. */
  lemma RootedLinkFindsItsPath(name: Path, p: Path, hardlink: bool)
    requires p != [] && AllPlain(p)
    ensures Target(name, "/" + Join(p), hardlink, true) == Ok(p)
    ensures Target(name, Join(p), true, true) == Ok(p)
  {
    SegmentsJoin(p);
    MeaningfulPlain(p);
    SegmentsConcat("", Join(p));
    assert "" + "/" + Join(p) == "/" + Join(p);
    assert Segments("/" + Join(p)) == [""] + p;
    assert ([""] + p)[1..] == p;
    PlainIsFixed([], p);
    assert [] + p == p;
    if IsAbsolute(Join(p)) || Join(p) == "" {
      assert Segments(Join(p))[0] == "";
    }
  }
}
