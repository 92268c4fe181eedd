/** The private bundle writer: every artifact appears under its final name with its whole text, or
    nothing changes.

    A directory maps names to contents.  Any create, write, sync, link or unlink may fail; the clean-up
    unlinks succeed.  `history` holds every state the directory has been in, so what is true of all of
    it is true after a crash at any point. */
module BundleWriter {
  type Name = string
  type Text = seq<int>
  type Files = map<Name, Text>

  datatype Status = Fine | Exists | Broken

  /** Apart from `names`, `m` is `base`. */
  ghost predicate Outside(base: Files, m: Files, names: seq<Name>) {
    forall n :: n !in names ==> (n in m <==> n in base) && (n in base ==> m[n] == base[n])
  }

  predicate Distinct(names: seq<Name>) {
    forall i, j :: 0 <= i < j < |names| ==> names[i] != names[j]
  }

  /** The first `k` names hold their texts and were not there before. */
  ghost predicate Holds(base: Files, m: Files, names: seq<Name>, texts: seq<Text>, k: nat)
    requires k <= |names| == |texts|
  {
    forall i :: 0 <= i < k ==> names[i] !in base && names[i] in m && m[names[i]] == texts[i]
  }

  /** Nothing that was there is overwritten, and what is new under a final name is its whole text. */
  ghost predicate Safe(base: Files, m: Files, finals: seq<Name>, texts: seq<Text>, temps: seq<Name>)
    requires |finals| == |texts|
  {
    && Outside(base, m, finals + temps)
    && forall i :: 0 <= i < |finals| ==>
         if finals[i] in base then finals[i] in m && m[finals[i]] == base[finals[i]]
         else finals[i] in m ==> m[finals[i]] == texts[i]
  }

  /** The directory's history went on, safely. */
  ghost predicate WentOn(before: seq<Files>, after: seq<Files>,
                         base: Files, finals: seq<Name>, texts: seq<Text>, temps: seq<Name>)
    requires |finals| == |texts|
  {
    && before <= after
    && forall k :: |before| <= k < |after| ==> Safe(base, after[k], finals, texts, temps)
  }

  lemma WentOnTwice(a: seq<Files>, b: seq<Files>, c: seq<Files>,
                    base: Files, finals: seq<Name>, texts: seq<Text>, temps: seq<Name>)
    requires |finals| == |texts| && WentOn(a, b, base, finals, texts, temps) && WentOn(b, c, base, finals, texts, temps)
    ensures WentOn(a, c, base, finals, texts, temps)
  {
    forall k | |a| <= k < |c| ensures Safe(base, c[k], finals, texts, temps) {
      assert k < |b| ==> c[k] == b[k];
    }
  }

  class Directory {
    /** Whether the `i`-th call fails, and how much of what is offered the `i`-th write takes. */
    const fails: nat -> bool
    const takes: nat -> nat
    var calls: nat
    var files: Files
    /** Names whose content has reached the disk, and whether the directory itself has. */
    var synced: set<Name>
    var settled: bool
    ghost var history: seq<Files>

    constructor (files: Files, fails: nat -> bool, takes: nat -> nat)
      ensures this.files == files && history == [files] && this.fails == fails && this.takes == takes && calls == 0
      ensures synced == {} && !settled
    {
      this.files, this.fails, this.takes, calls, history := files, fails, takes, 0, [files];
      synced, settled := {}, false;
    }

    /** No call fails. */
    ghost predicate Reliable() {
      forall i :: !fails(i)
    }

    method Call() returns (ok: bool)
      modifies `calls
      ensures Reliable() ==> ok
    {
      ok := !fails(calls);
      calls := calls + 1;
    }

    method Put(m: Files)
      modifies `files, `history, `settled
      ensures files == m && history == old(history) + [m] && !settled
    {
      files, settled := m, false;
      history := history + [m];
    }

    /** Exclusive creation. */
    method Create(n: Name) returns (s: Status)
      modifies this
      ensures s.Fine? ==> n !in old(files) && files == old(files)[n := []] && history == old(history) + [files]
      ensures !s.Fine? ==> files == old(files) && history == old(history)
      ensures n in old(files) ==> !s.Fine?
      ensures Reliable() && n !in old(files) ==> s.Fine?
      ensures synced == if s.Fine? then old(synced) - {n} else old(synced)
    {
      var ok := Call();
      if !ok {
        return Broken;
      }
      if n in files {
        return Exists;
      }
      Put(files[n := []]);
      synced := synced - {n};
      return Fine;
    }

    /** Appends a non-empty piece of what is offered. */
    method Append(n: Name, offered: Text) returns (s: Status, written: nat)
      requires n in files && offered != []
      modifies this
      ensures Reliable() ==> s.Fine?
      ensures s.Fine? ==> 0 < written <= |offered| && files == old(files)[n := old(files)[n] + offered[..written]]
      ensures s.Fine? ==> history == old(history) + [files]
      ensures !s.Fine? ==> files == old(files) && history == old(history)
      ensures synced == if s.Fine? then old(synced) - {n} else old(synced)
    {
      written := takes(calls);
      written := if written == 0 then 1 else if written > |offered| then |offered| else written;
      var ok := Call();
      if !ok {
        return Broken, 0;
      }
      Put(files[n := files[n] + offered[..written]]);
      synced := synced - {n};
      return Fine, written;
    }

    method SyncFile(n: Name) returns (s: Status)
      modifies `calls, `synced
      ensures Reliable() ==> s.Fine?
      ensures synced == if s.Fine? then old(synced) + {n} else old(synced)
    {
      var ok := Call();
      if !ok {
        return Broken;
      }
      synced := synced + {n};
      return Fine;
    }

    method SyncDirectory() returns (s: Status)
      modifies `calls, `settled
      ensures Reliable() ==> s.Fine?
      ensures s.Fine? ==> settled
    {
      var ok := Call();
      settled := settled || ok;
      return if ok then Fine else Broken;
    }

    /** A second name for a file whose content has reached the disk; the name must be free. */
    method Link(source: Name, n: Name) returns (s: Status)
      requires source in files && source in synced
      modifies this
      ensures Reliable() && n !in old(files) ==> s.Fine?
      ensures s.Fine? ==> n !in old(files) && files == old(files)[n := old(files)[source]] && history == old(history) + [files]
      ensures !s.Fine? ==> files == old(files) && history == old(history)
      ensures synced == if s.Fine? then old(synced) + {n} else old(synced)
    {
      var ok := Call();
      if !ok {
        return Broken;
      }
      if n in files {
        return Exists;
      }
      Put(files[n := files[source]]);
      synced := synced + {n};
      return Fine;
    }

    method Unlink(n: Name) returns (s: Status)
      requires n in files
      modifies `files, `history, `settled, `calls
      ensures Reliable() ==> s.Fine?
      ensures s.Fine? ==> files == old(files) - {n} && history == old(history) + [files]
      ensures !s.Fine? ==> files == old(files) && history == old(history)
    {
      var ok := Call();
      if !ok {
        return Broken;
      }
      Put(files - {n});
      return Fine;
    }

    /** Clean-up: a name that is not there is no error. */
    method Discard(n: Name)
      modifies `files, `history, `settled
      ensures files == old(files) - {n} && history == old(history) + [files]
    {
      Put(files - {n});
    }
  }

  function NameSet(names: seq<Name>): set<Name> {
    set n | n in names
  }

  /** The contents behind the first `k` names have reached the disk. */
  ghost predicate Durable(synced: set<Name>, names: seq<Name>, k: nat)
    requires k <= |names|
  {
    forall i :: 0 <= i < k ==> names[i] in synced
  }

  lemma DurableStep(synced: set<Name>, next: set<Name>, names: seq<Name>, k: nat)
    requires k < |names| && Distinct(names) && Durable(synced, names, k)
    requires synced - {names[k]} <= next && names[k] in next
    ensures Durable(next, names, k + 1)
  {
  }

  // ---- Steps keep the directory safe ----

  lemma SafeTemporary(base: Files, m: Files, finals: seq<Name>, texts: seq<Text>, temps: seq<Name>, n: Name, m': Files)
    requires |finals| == |texts| && Safe(base, m, finals, texts, temps)
    requires n in temps && n !in finals
    requires forall x :: x != n ==> (x in m' <==> x in m) && (x in m ==> m'[x] == m[x])
    ensures Safe(base, m', finals, texts, temps)
  {
  }

  lemma SafeFinal(base: Files, m: Files, finals: seq<Name>, texts: seq<Text>, temps: seq<Name>, i: nat, m': Files)
    requires |finals| == |texts| && Safe(base, m, finals, texts, temps) && Distinct(finals)
    requires i < |finals| && finals[i] !in base
    requires forall x :: x != finals[i] ==> (x in m' <==> x in m) && (x in m ==> m'[x] == m[x])
    requires finals[i] in m' ==> m'[finals[i]] == texts[i]
    ensures Safe(base, m', finals, texts, temps)
  {
  }

  /** The names in play: finals and temporaries, all different. */
  predicate NamesOk(finals: seq<Name>, texts: seq<Text>, temps: seq<Name>) {
    && |finals| == |texts| == |temps|
    && Distinct(finals) && Distinct(temps)
    && forall i, j :: 0 <= i < |finals| && 0 <= j < |temps| ==> finals[i] != temps[j]
  }

  ghost predicate Fresh(base: Files, names: seq<Name>) {
    forall i :: 0 <= i < |names| ==> names[i] !in base
  }

  /** The first name that is already taken, or the number of names. */
  ghost function FirstTaken(base: Files, names: seq<Name>): (k: nat)
    ensures k <= |names| && (k < |names| ==> names[k] in base) && forall i :: 0 <= i < k ==> names[i] !in base
  {
    if names == [] || names[0] in base then 0
    else
      var k := FirstTaken(base, names[1..]);
      assert forall i :: 0 < i <= k ==> names[i] == names[1..][i - 1];
      k + 1
  }

  /** Dropping the names up to the first taken one drops that one alone. */
  lemma DropsFirstTaken(base: Files, names: seq<Name>, k: nat)
    requires k == FirstTaken(base, names) < |names|
    ensures base - NameSet(names[..k + 1]) == base - {names[k]} != base
  {
    assert forall n :: n in NameSet(names[..k + 1]) && n in base ==> n == names[k];
    assert names[k] in names[..k + 1];
  }

  lemma DropsNothing(base: Files, names: seq<Name>, dropped: seq<Name>)
    requires Fresh(base, names) && dropped <= names
    ensures base - NameSet(dropped) == base
  {
    assert forall n :: n in dropped ==> n in names;
  }

  // ---- The writer ----

  /** One temporary: created, filled piece by piece, synced. */
  method WriteTemporary(d: Directory, temp: Name, text: Text, ghost base: Files,
                        ghost finals: seq<Name>, ghost texts: seq<Text>, ghost temps: seq<Name>)
    returns (s: Status)
    requires |finals| == |texts| && Safe(base, d.files, finals, texts, temps) && temp in temps && temp !in finals
    modifies d
    ensures s.Fine? ==> temp !in old(d.files) && d.files == old(d.files)[temp := text]
    ensures !s.Fine? ==> Outside(old(d.files), d.files, [temp])
    ensures temp in old(d.files) ==> !s.Fine? && d.files == old(d.files)
    ensures d.Reliable() && temp !in old(d.files) ==> s.Fine?
    ensures old(d.synced) - {temp} <= d.synced && (s.Fine? ==> temp in d.synced)
    ensures Safe(base, d.files, finals, texts, temps)
    ensures WentOn(old(d.history), d.history, base, finals, texts, temps)
  {
    s := d.Create(temp);
    if !s.Fine? {
      return;
    }
    SafeTemporary(base, old(d.files), finals, texts, temps, temp, d.files);
    var offset := 0;
    while offset < |text|
      invariant 0 <= offset <= |text| && temp !in old(d.files)
      invariant d.files == old(d.files)[temp := text[..offset]]
      invariant Safe(base, d.files, finals, texts, temps) && old(d.synced) - {temp} <= d.synced
      invariant WentOn(old(d.history), d.history, base, finals, texts, temps)
    {
      var written;
      ghost var before := d.files;
      s, written := d.Append(temp, text[offset..]);
      if !s.Fine? {
        return;
      }
      assert text[..offset] + text[offset..][..written] == text[..offset + written];
      offset := offset + written;
      SafeTemporary(base, before, finals, texts, temps, temp, d.files);
    }
    assert text[..|text|] == text;
    s := d.SyncFile(temp);
  }

  /** The first `k` temporaries are written. */
  ghost predicate StagedUpTo(base: Files, m: Files, finals: seq<Name>, texts: seq<Text>, temps: seq<Name>, k: nat)
    requires NamesOk(finals, texts, temps) && k <= |temps|
  {
    Holds(base, m, temps, texts, k) && Outside(base, m, temps[..k]) && Safe(base, m, finals, texts, temps)
  }

  lemma TempIsNew(finals: seq<Name>, texts: seq<Text>, temps: seq<Name>, k: nat)
    requires NamesOk(finals, texts, temps) && k < |temps|
    ensures temps[k] !in finals && temps[k] in temps && temps[k] !in temps[..k]
    ensures temps[..k + 1] == temps[..k] + [temps[k]]
  {
  }

  lemma StageStep(base: Files, m: Files, finals: seq<Name>, texts: seq<Text>, temps: seq<Name>, k: nat, m': Files)
    requires NamesOk(finals, texts, temps) && k < |temps| && StagedUpTo(base, m, finals, texts, temps, k)
    requires Safe(base, m', finals, texts, temps) && Outside(m, m', [temps[k]])
    ensures Outside(base, m', temps[..k + 1])
    ensures temps[k] !in m && m' == m[temps[k] := texts[k]] ==> StagedUpTo(base, m', finals, texts, temps, k + 1)
  {
    TempIsNew(finals, texts, temps, k);
    forall n | n !in temps[..k + 1] ensures (n in m' <==> n in base) && (n in base ==> m'[n] == base[n]) {
      assert n !in temps[..k] && n !in [temps[k]];
    }
  }

  /** All temporaries; `tried` are those that may exist now. */
  method WriteTemporaries(d: Directory, ghost finals: seq<Name>, texts: seq<Text>, temps: seq<Name>)
    returns (s: Status, tried: nat)
    requires NamesOk(finals, texts, temps)
    modifies d
    ensures tried <= |temps| && (s.Fine? ==> tried == |temps| && StagedUpTo(old(d.files), d.files, finals, texts, temps, tried))
    ensures Outside(old(d.files), d.files, temps[..tried]) && Safe(old(d.files), d.files, finals, texts, temps)
    ensures WentOn(old(d.history), d.history, old(d.files), finals, texts, temps)
    ensures d.Reliable() && Fresh(old(d.files), temps) ==> s.Fine?
    ensures s.Fine? ==> Durable(d.synced, temps, |temps|)
    ensures temps != [] && temps[0] in old(d.files) ==> tried == 1
    ensures d.Reliable() && !s.Fine? ==> tried == FirstTaken(old(d.files), temps) + 1
    ensures s.Fine? ==> Fresh(old(d.files), temps)
  {
    ghost var base := d.files;
    ghost var first := FirstTaken(base, temps);
    s, tried := Fine, 0;
    while tried < |temps|
      invariant tried <= |temps| && s.Fine? && StagedUpTo(base, d.files, finals, texts, temps, tried)
      invariant WentOn(old(d.history), d.history, base, finals, texts, temps)
      invariant temps != [] && temps[0] in base ==> tried == 0
      invariant tried <= first
      invariant Durable(d.synced, temps, tried)
    {
      ghost var before, syncedBefore := d.files, d.synced;
      TempIsNew(finals, texts, temps, tried);
      s := WriteTemporary(d, temps[tried], texts[tried], base, finals, texts, temps);
      StageStep(base, before, finals, texts, temps, tried, d.files);
      if !s.Fine? {
        tried := tried + 1;
        return;
      }
      DurableStep(syncedBefore, d.synced, temps, tried);
      tried := tried + 1;
    }
    assert temps[..|temps|] == temps;
  }

  /** All temporaries are written and the first `k` final names are linked. */
  ghost predicate LinkedUpTo(base: Files, m: Files, finals: seq<Name>, texts: seq<Text>, temps: seq<Name>, k: nat)
    requires NamesOk(finals, texts, temps) && k <= |finals|
  {
    && Holds(base, m, finals, texts, k) && Holds(base, m, temps, texts, |temps|)
    && Outside(base, m, temps + finals[..k]) && Safe(base, m, finals, texts, temps)
  }

  lemma FinalIsNew(finals: seq<Name>, texts: seq<Text>, temps: seq<Name>, k: nat)
    requires NamesOk(finals, texts, temps) && k < |finals|
    ensures finals[k] !in temps && finals[k] !in finals[..k] && finals[..k + 1] == finals[..k] + [finals[k]]
    ensures forall n :: n in temps + finals[..k + 1] <==> n in temps + finals[..k] || n == finals[k]
  {
    assert temps + finals[..k + 1] == (temps + finals[..k]) + [finals[k]];
  }

  lemma LinkStep(base: Files, m: Files, finals: seq<Name>, texts: seq<Text>, temps: seq<Name>, k: nat)
    requires NamesOk(finals, texts, temps) && k < |finals| && LinkedUpTo(base, m, finals, texts, temps, k)
    requires finals[k] !in m && temps[k] in m
    ensures LinkedUpTo(base, m[finals[k] := m[temps[k]]], finals, texts, temps, k + 1)
  {
    var m' := m[finals[k] := m[temps[k]]];
    FinalIsNew(finals, texts, temps, k);
    assert finals[k] !in base;
    SafeFinal(base, m, finals, texts, temps, k, m');
    assert Outside(base, m', temps + finals[..k + 1]);
    forall i | 0 <= i < |temps| ensures temps[i] in m' && m'[temps[i]] == texts[i] {
      assert temps[i] != finals[k];
    }
  }

  /** The temporaries get their final names; `linked` of them did. */
  method LinkAll(d: Directory, ghost base: Files, finals: seq<Name>, ghost texts: seq<Text>, temps: seq<Name>)
    returns (s: Status, linked: nat)
    requires NamesOk(finals, texts, temps) && LinkedUpTo(base, d.files, finals, texts, temps, 0)
    requires Durable(d.synced, temps, |temps|)
    modifies d
    ensures linked <= |finals| && (s.Fine? ==> linked == |finals|)
    ensures Durable(d.synced, finals, linked)
    ensures LinkedUpTo(base, d.files, finals, texts, temps, linked)
    ensures WentOn(old(d.history), d.history, base, finals, texts, temps)
    ensures d.Reliable() && Fresh(base, finals) ==> s.Fine?
  {
    s, linked := Fine, 0;
    while linked < |finals|
      invariant linked <= |finals| && s.Fine?
      invariant LinkedUpTo(base, d.files, finals, texts, temps, linked)
      invariant Durable(d.synced, temps, |temps|) && Durable(d.synced, finals, linked)
      invariant WentOn(old(d.history), d.history, base, finals, texts, temps)
    {
      assert temps[linked] in d.files;
      assert finals[linked] !in temps + finals[..linked];
      ghost var before, syncedBefore := d.files, d.synced;
      s := d.Link(temps[linked], finals[linked]);
      if !s.Fine? {
        return;
      }
      LinkStep(base, before, finals, texts, temps, linked);
      DurableStep(syncedBefore, d.synced, finals, linked);
      linked := linked + 1;
    }
  }

  /** The first `k` temporaries are gone again. */
  ghost predicate ClearedUpTo(base: Files, m: Files, finals: seq<Name>, texts: seq<Text>, temps: seq<Name>, k: nat)
    requires NamesOk(finals, texts, temps) && k <= |temps|
  {
    && Holds(base, m, finals, texts, |finals|)
    && (forall i :: 0 <= i < |temps| ==> temps[i] !in base && (temps[i] in m <==> k <= i))
    && Outside(base, m, temps + finals) && Safe(base, m, finals, texts, temps)
  }

  lemma ClearStep(base: Files, m: Files, finals: seq<Name>, texts: seq<Text>, temps: seq<Name>, k: nat)
    requires NamesOk(finals, texts, temps) && k < |temps| && ClearedUpTo(base, m, finals, texts, temps, k)
    ensures ClearedUpTo(base, m - {temps[k]}, finals, texts, temps, k + 1)
  {
    var m' := m - {temps[k]};
    forall i | 0 <= i < |finals| ensures finals[i] in m' && m'[finals[i]] == texts[i] {
      assert finals[i] != temps[k];
    }
    assert temps[k] !in finals;
    SafeTemporary(base, m, finals, texts, temps, temps[k], m');
  }

  /** The temporaries lose their own names. */
  method ClearTemporaries(d: Directory, ghost base: Files, ghost finals: seq<Name>, ghost texts: seq<Text>, temps: seq<Name>)
    returns (s: Status)
    requires NamesOk(finals, texts, temps) && ClearedUpTo(base, d.files, finals, texts, temps, 0)
    modifies d`files, d`history, d`settled, d`calls
    ensures s.Fine? ==> ClearedUpTo(base, d.files, finals, texts, temps, |temps|)
    ensures Outside(base, d.files, temps + finals) && Safe(base, d.files, finals, texts, temps)
    ensures WentOn(old(d.history), d.history, base, finals, texts, temps)
    ensures d.Reliable() ==> s.Fine?
  {
    s := Fine;
    var k := 0;
    while k < |temps|
      invariant k <= |temps| && s.Fine? && ClearedUpTo(base, d.files, finals, texts, temps, k)
      invariant WentOn(old(d.history), d.history, base, finals, texts, temps)
    {
      ghost var before := d.files;
      s := d.Unlink(temps[k]);
      if !s.Fine? {
        return;
      }
      ClearStep(base, before, finals, texts, temps, k);
      k := k + 1;
    }
  }

  lemma DiscardStep(base: Files, m: Files, finals: seq<Name>, texts: seq<Text>, temps: seq<Name>, n: Name)
    requires |finals| == |texts| && Safe(base, m, finals, texts, temps)
    requires n in finals + temps && (n in finals ==> n !in base)
    ensures Safe(base, m - {n}, finals, texts, temps)
  {
  }

  /** The clean-up of names this run made. */
  method DiscardAll(d: Directory, names: seq<Name>, ghost base: Files,
                    ghost finals: seq<Name>, ghost texts: seq<Text>, ghost temps: seq<Name>)
    requires |finals| == |texts| && Safe(base, d.files, finals, texts, temps)
    requires forall n :: n in names ==> n in finals + temps && (n in finals ==> n !in base)
    modifies d`files, d`history, d`settled
    ensures d.files == old(d.files) - NameSet(names)
    ensures Safe(base, d.files, finals, texts, temps)
    ensures WentOn(old(d.history), d.history, base, finals, texts, temps)
  {
    var k := 0;
    while k < |names|
      invariant k <= |names| && d.files == old(d.files) - NameSet(names[..k])
      invariant Safe(base, d.files, finals, texts, temps)
      invariant WentOn(old(d.history), d.history, base, finals, texts, temps)
    {
      assert names[..k + 1] == names[..k] + [names[k]];
      DiscardStep(base, d.files, finals, texts, temps, names[k]);
      d.Discard(names[k]);
      k := k + 1;
    }
    assert names[..|names|] == names;
  }

  lemma OutsideSwapped(base: Files, m: Files, a: seq<Name>, b: seq<Name>)
    requires Outside(base, m, a + b)
    ensures Outside(base, m, b + a)
  {
    forall n | n !in b + a ensures n !in a + b {}
  }

  /** Clears the temporaries and syncs the directory, all final names being linked. */
  method Conclude(d: Directory, ghost base: Files, finals: seq<Name>, ghost texts: seq<Text>, temps: seq<Name>)
    returns (s: Status, left: seq<Name>)
    requires NamesOk(finals, texts, temps) && LinkedUpTo(base, d.files, finals, texts, temps, |finals|)
    modifies d`files, d`history, d`settled, d`calls
    ensures left == temps || left == []
    ensures s.Fine? ==> ClearedUpTo(base, d.files, finals, texts, temps, |temps|) && left == [] && d.settled
    ensures !s.Fine? ==> Outside(base, d.files, finals + left)
    ensures Safe(base, d.files, finals, texts, temps)
    ensures WentOn(old(d.history), d.history, base, finals, texts, temps)
    ensures d.Reliable() ==> s.Fine?
  {
    LinkedIsReady(base, d.files, finals, texts, temps);
    s := ClearTemporaries(d, base, finals, texts, temps);
    if !s.Fine? {
      OutsideSwapped(base, d.files, temps, finals);
      return s, temps;
    }
    WrittenIsFresh(base, d.files, finals, texts, temps);
    assert finals + [] == finals;
    s := d.SyncDirectory();
    left := [];
  }

  /** Links, clears and syncs; `made` and `left` are the final and temporary names that may have been added. */
  method Publish(d: Directory, ghost base: Files, finals: seq<Name>, ghost texts: seq<Text>, temps: seq<Name>)
    returns (s: Status, made: seq<Name>, left: seq<Name>)
    requires NamesOk(finals, texts, temps) && LinkedUpTo(base, d.files, finals, texts, temps, 0)
    requires Durable(d.synced, temps, |temps|)
    modifies d
    ensures made <= finals && (left == temps || left == []) && forall n :: n in made ==> n !in base
    ensures s.Fine? ==> ClearedUpTo(base, d.files, finals, texts, temps, |temps|) && left == []
    ensures s.Fine? ==> d.settled && Durable(d.synced, finals, |finals|)
    ensures !s.Fine? ==> Outside(base, d.files, made + left)
    ensures Safe(base, d.files, finals, texts, temps)
    ensures WentOn(old(d.history), d.history, base, finals, texts, temps)
    ensures d.Reliable() && Fresh(base, finals) ==> s.Fine?
  {
    var linked;
    s, linked := LinkAll(d, base, finals, texts, temps);
    made, left := finals[..linked], temps;
    LinkedNotBefore(base, d.files, finals, texts, temps, linked);
    if s.Fine? {
      LinkedIsReady(base, d.files, finals, texts, temps);
      s, left := Conclude(d, base, finals, texts, temps);
    }
  }

  lemma LinkedNotBefore(base: Files, m: Files, finals: seq<Name>, texts: seq<Text>, temps: seq<Name>, k: nat)
    requires NamesOk(finals, texts, temps) && k <= |finals| && LinkedUpTo(base, m, finals, texts, temps, k)
    ensures Outside(base, m, finals[..k] + temps) && forall n :: n in finals[..k] ==> n !in base
  {
    OutsideSwapped(base, m, temps, finals[..k]);
  }

  /** The attempt: what was made, and which temporaries and final names are to be dropped on failure. */
  method Attempt(d: Directory, finals: seq<Name>, texts: seq<Text>, temps: seq<Name>)
    returns (s: Status, made: seq<Name>, left: seq<Name>)
    requires NamesOk(finals, texts, temps)
    modifies d
    ensures !Fresh(old(d.files), temps) ==> !s.Fine? && made == []
    ensures d.Reliable() && !Fresh(old(d.files), temps) ==> left == temps[..FirstTaken(old(d.files), temps) + 1]
    ensures !Fresh(old(d.files), temps) && temps[0] in old(d.files) ==> left == temps[..1]
    ensures made <= finals && left <= temps && forall n :: n in made ==> n !in old(d.files)
    ensures s.Fine? ==> ClearedUpTo(old(d.files), d.files, finals, texts, temps, |temps|) && left == []
    ensures s.Fine? ==> d.settled && Durable(d.synced, finals, |finals|)
    ensures !s.Fine? ==> Outside(old(d.files), d.files, made + left)
    ensures Safe(old(d.files), d.files, finals, texts, temps)
    ensures WentOn(old(d.history), d.history, old(d.files), finals, texts, temps)
    ensures d.Reliable() && Fresh(old(d.files), temps + finals) ==> s.Fine?
  {
    ghost var base := d.files;
    var tried;
    FreshParts(base, temps, finals);
    s, tried := WriteTemporaries(d, finals, texts, temps);
    made, left := [], temps[..tried];
    assert made + left == left;
    if !s.Fine? {
      return;
    }
    StagedIsReady(base, d.files, finals, texts, temps);
    ghost var staged := d.history;
    s, made, left := Publish(d, base, finals, texts, temps);
    WentOnTwice(old(d.history), staged, d.history, base, finals, texts, temps);
  }

  lemma FreshParts(base: Files, temps: seq<Name>, finals: seq<Name>)
    ensures Fresh(base, temps + finals) ==> Fresh(base, temps) && Fresh(base, finals)
  {
    assert forall i :: 0 <= i < |temps| ==> (temps + finals)[i] == temps[i];
    assert forall i :: 0 <= i < |finals| ==> (temps + finals)[|temps| + i] == finals[i];
  }

  lemma StagedIsReady(base: Files, m: Files, finals: seq<Name>, texts: seq<Text>, temps: seq<Name>)
    requires NamesOk(finals, texts, temps) && StagedUpTo(base, m, finals, texts, temps, |temps|)
    ensures LinkedUpTo(base, m, finals, texts, temps, 0) && temps[..|temps|] == temps
  {
    assert temps[..|temps|] == temps && temps + finals[..0] == temps;
  }

  lemma LinkedIsReady(base: Files, m: Files, finals: seq<Name>, texts: seq<Text>, temps: seq<Name>)
    requires NamesOk(finals, texts, temps) && LinkedUpTo(base, m, finals, texts, temps, |finals|)
    ensures ClearedUpTo(base, m, finals, texts, temps, 0) && finals[..|finals|] == finals
    ensures forall n :: n in finals ==> n !in base
  {
    assert finals[..|finals|] == finals;
  }

  /** Either every final name is new and holds its text and nothing else changed, or the directory is as
      it was but for files that already had the name of a temporary tried; at no point in between is
      anything overwritten or a final name incomplete.  Without faults the bundle is written exactly when
      all names are free. */
  method WriteBundle(d: Directory, finals: seq<Name>, texts: seq<Text>, temps: seq<Name>)
    returns (s: Status, ghost dropped: seq<Name>)
    requires NamesOk(finals, texts, temps)
    modifies d
    ensures s.Fine? ==> Holds(old(d.files), d.files, finals, texts, |finals|) && Outside(old(d.files), d.files, finals)
    ensures s.Fine? ==> d.settled && Durable(d.synced, finals, |finals|)
    ensures dropped <= temps && (!s.Fine? ==> d.files == old(d.files) - NameSet(dropped))
    ensures !s.Fine? && Fresh(old(d.files), temps) ==> d.files == old(d.files)
    ensures WentOn(old(d.history), d.history, old(d.files), finals, texts, temps)
    ensures d.Reliable() ==> (s.Fine? <==> Fresh(old(d.files), temps + finals))
    // A file that already has a temporary's name is deleted, although this run did not make it.
    ensures temps != [] && temps[0] in old(d.files) ==> !s.Fine? && d.files == old(d.files) - {temps[0]}
    ensures d.Reliable() && !Fresh(old(d.files), temps) ==>
              d.files == old(d.files) - {temps[FirstTaken(old(d.files), temps)]}
    ensures d.Reliable() && !s.Fine? ==> (d.files == old(d.files) <==> Fresh(old(d.files), temps))
  {
    ghost var base := d.files;
    var made, left;
    s, made, left := Attempt(d, finals, texts, temps);
    dropped := left;
    if s.Fine? {
      WrittenIsFresh(base, d.files, finals, texts, temps);
    } else {
      CleanUp(d, base, finals, texts, temps, made, left);
      LeftBehind(base, temps, left);
    }
  }

  /** The clean-up after a failed attempt: what it made goes, and so do the temporaries it tried. */
  method CleanUp(d: Directory, ghost base: Files, ghost finals: seq<Name>, ghost texts: seq<Text>, ghost temps: seq<Name>,
                 made: seq<Name>, left: seq<Name>)
    requires NamesOk(finals, texts, temps) && Safe(base, d.files, finals, texts, temps)
    requires made <= finals && left <= temps && Outside(base, d.files, made + left) && forall n :: n in made ==> n !in base
    modifies d`files, d`history, d`settled
    ensures d.files == base - NameSet(left)
    ensures WentOn(old(d.history), d.history, base, finals, texts, temps)
  {
    ghost var m := d.files;
    DiscardAll(d, made, base, finals, texts, temps);
    DiscardAll(d, left, base, finals, texts, temps);
    Restored(base, m, made, left);
  }

  /** What is left of a directory when the temporaries tried are dropped. */
  lemma LeftBehind(base: Files, temps: seq<Name>, left: seq<Name>)
    requires left <= temps
    ensures Fresh(base, temps) ==> base - NameSet(left) == base
    ensures temps != [] && temps[0] in base && left == temps[..1] ==> base - NameSet(left) == base - {temps[0]}
    ensures !Fresh(base, temps) && left == temps[..FirstTaken(base, temps) + 1] ==>
              base - NameSet(left) == base - {temps[FirstTaken(base, temps)]} && base - NameSet(left) != base
  {
    if Fresh(base, temps) {
      DropsNothing(base, temps, left);
    } else {
      DropsFirstTaken(base, temps, FirstTaken(base, temps));
    }
  }

  lemma Restored(base: Files, m: Files, made: seq<Name>, left: seq<Name>)
    requires Outside(base, m, made + left) && forall n :: n in made ==> n !in base
    ensures m - NameSet(made) - NameSet(left) == base - NameSet(left)
  {
    forall n | n !in made && n !in left ensures (n in m <==> n in base) && (n in base ==> m[n] == base[n]) {
      assert n !in made + left;
    }
  }

  lemma WrittenIsFresh(base: Files, m: Files, finals: seq<Name>, texts: seq<Text>, temps: seq<Name>)
    requires NamesOk(finals, texts, temps) && ClearedUpTo(base, m, finals, texts, temps, |temps|)
    ensures Fresh(base, temps + finals) && Outside(base, m, finals)
  {
  }

  // ---- The names ----

  /** `.{final}.{token}.tmp`. */
  function TemporaryOf(final: Name, token: string): Name {
    "." + final + "." + token + ".tmp"
  }

  /** The names the writer uses are always different from each other: the JSON name ends in a letter n, its
      Markdown companion in a letter d, and both temporaries in a letter p with tokens of one length. */
  lemma BundleNamesOk(stem: string, extension: string, json: Text, markdown: Text, one: string, two: string)
    requires |extension| == 5 && (extension[4] == 'n' || extension[4] == 'N') && |one| == |two|
    ensures NamesOk([stem + extension, stem + ".md"], [json, markdown],
                    [TemporaryOf(stem + extension, one), TemporaryOf(stem + ".md", two)])
  {
    var jsonName, markdownName := stem + extension, stem + ".md";
    var first, second := TemporaryOf(jsonName, one), TemporaryOf(markdownName, two);
    assert first[|first| - 1] == 'p' && second[|second| - 1] == 'p';
    assert jsonName[|jsonName| - 1] == extension[4];
    assert markdownName[|markdownName| - 1] == 'd';
    assert |first| == |second| + 2;
  }
}
