/** The store object.  Its methods change the directory one file-system call at
    a time, and every call is a step of `DiskMachine`, so what is proved of all
    its runs holds at every point inside them. */
module CacheStore {
  import opened Text
  import opened DiskMachine

  /** How a Write ended: both files in place, nothing but a temporary file
      changed, or a new body beside whatever sidecar was there before. */
  datatype WriteResult = Complete | Unwritten | Torn

  datatype Listing = Missing | Unreadable | Names(names: seq<string>)

  datatype SweepResult = Swept(removed: nat) | SweepFailed(removed: nat)

  class Store {
    const keyOf: string -> string   // CacheKey
    const healthy: bool             // no file-system call ever fails
    var files: Files

    ghost var now: State            // where the machine is
    ghost var trace: seq<State>     // every state it has been in

    ghost predicate Valid()
      reads this
    {
      && (forall u :: IsStem(keyOf(u)))
      && now.files == files && Inv(now)
      && IsTrace(trace) && trace[|trace| - 1] == now && Inv(trace[0])
    }

    constructor (keyOf: string -> string, healthy: bool)
      requires forall u :: IsStem(keyOf(u))
      ensures Valid() && files == map[] && now.task.Idle? && this.keyOf == keyOf && this.healthy == healthy
    {
      this.keyOf, this.healthy := keyOf, healthy;
      files := map[];
      now := State(map[], Idle, {}, {}, {});
      trace := [State(map[], Idle, {}, {}, {})];
      EmptyInv();
    }

    /** A store over what an earlier process, ended or crashed, left on disk. */
    constructor Over(keyOf: string -> string, healthy: bool, files: Files, ghost left: State)
      requires (forall u :: IsStem(keyOf(u))) && left.files == files && left.task.Idle? && Inv(left)
      ensures Valid() && this.files == files && this.keyOf == keyOf && this.healthy == healthy && now == left
    {
      this.keyOf, this.healthy := keyOf, healthy;
      this.files := files;
      now := left;
      trace := [left];
    }

    /** Whether a file-system call succeeds. */
    method Try() returns (ok: bool)
      ensures healthy ==> ok
    {
      ok := *;
      if healthy {
        ok := true;
      }
    }

    /** The machine takes the step that the last file-system call was. */
    ghost method Advance(step: Step)
      requires IsTrace(trace) && trace[|trace| - 1] == now && Inv(trace[0]) && Inv(now) && Enabled(now, step)
      modifies this`now, this`trace
      ensures IsTrace(trace) && trace[|trace| - 1] == now && Inv(trace[0]) && Inv(now)
      ensures now == Apply(old(now), step) && trace == old(trace) + [now]
    {
      ExtendTrace(trace, step);
      StepInv(now, step);
      now := Apply(now, step);
      trace := trace + [now];
    }

    /** At every point of everything this store has done, the directory was safe. */
    lemma AlwaysSafe(n: nat)
      requires Valid() && n < |trace|
      ensures Safe(trace[n])
    {
      TraceSafe(trace, n);
    }

    method OpenTmp(tmp: string) returns (ok: bool)
      requires Valid() && At(now, Opening) && tmp == TmpName(now.task.Path())
      modifies this`files, this`now, this`trace
      ensures Valid() && old(trace) <= trace
      ensures healthy ==> ok
      ensures if ok then Moved(old(now), now, Filling) else Stopped(old(now), now)
    {
      ok := Try();
      if ok {
        files := files[tmp := ""];
      }
      Advance(Open(ok));
    }

    /** f.Write: a failing write may stop anywhere, and the file is then removed if possible. */
    method FillTmp(tmp: string, data: string) returns (ok: bool)
      requires Valid() && At(now, Filling) && tmp == TmpName(now.task.Path()) && data == now.task.Data()
      modifies this`files, this`now, this`trace
      ensures Valid() && old(trace) <= trace
      ensures healthy ==> ok
      ensures if ok then Moved(old(now), now, Syncing) else Stopped(old(now), now)
    {
      FillSome(tmp, data);
      ghost var some := now;
      ok := Try();
      if ok {
        files := files[tmp := data];
        Advance(Filled(true));
      } else {
        Advance(Filled(false));
        RemoveTmp(tmp);
      }
      MovedOn(old(now), some, now, Syncing);
    }

    /** The file holds some beginning of the data. */
    method FillSome(tmp: string, data: string)
      requires Valid() && At(now, Filling) && tmp == TmpName(now.task.Path()) && data == now.task.Data()
      modifies this`files, this`now, this`trace
      ensures Valid() && old(trace) <= trace && Moved(old(now), now, Filling)
    {
      var n :| 0 <= n <= |data|;
      files := files[tmp := data[..n]];
      Advance(FillTo(n));
    }

    /** f.Sync and f.Close; either may fail, and the file is then removed if possible. */
    method Settle(tmp: string) returns (ok: bool)
      requires Valid() && At(now, Syncing) && tmp == TmpName(now.task.Path())
      modifies this`files, this`now, this`trace
      ensures Valid() && old(trace) <= trace
      ensures healthy ==> ok
      ensures if ok then Moved(old(now), now, Renaming) else Stopped(old(now), now)
    {
      ok := Try();
      Advance(Sync(ok));
      if ok {
        ok := Try();
        Advance(Close(ok));
      }
      if !ok {
        RemoveTmp(tmp);
      }
    }

    /** Best-effort removal of the temporary file. */
    method RemoveTmp(tmp: string)
      requires Valid() && At(now, Cleaning) && tmp == TmpName(now.task.Path())
      modifies this`files, this`now, this`trace
      ensures Valid() && old(trace) <= trace && Stopped(old(now), now)
    {
      var removed: bool := *;
      if removed {
        files := files - {tmp};
      }
      Advance(Cleanup(removed));
    }

    method RenameTmp(tmp: string, path: string) returns (ok: bool)
      requires Valid() && At(now, Renaming) && path == now.task.Path() && tmp == TmpName(path)
      modifies this`files, this`now, this`trace
      ensures Valid() && old(trace) <= trace
      ensures healthy ==> ok
      ensures if ok then Placed(old(now), now) else Stopped(old(now), now)
    {
      ok := Try();
      if ok {
        files := (files - {tmp})[path := files[tmp]];
      }
      Advance(Rename(ok));
    }

    /** Write to a temporary file, sync, close, and rename into place. */
    method WriteFileAtomic(path: string, data: string) returns (ok: bool)
      requires Valid() && At(now, Opening) && path == now.task.Path() && data == now.task.Data()
      modifies this`files, this`now, this`trace
      ensures Valid() && old(trace) <= trace
      ensures healthy ==> ok
      ensures if ok then Placed(old(now), now) else Stopped(old(now), now)
    {
      var tmp := TmpName(path);
      ok := OpenTmp(tmp);
      if ok {
        ghost var created := now;
        ok := FillTmp(tmp, data);
        MovedOn(old(now), created, now, Syncing);
      }
      if ok {
        ghost var filled := now;
        ok := Settle(tmp);
        MovedOn(old(now), filled, now, Renaming);
      }
      if ok {
        ghost var settled := now;
        ok := RenameTmp(tmp, path);
        MovedOn(old(now), settled, now, Renaming);
      }
    }

    /** Persist body and sidecar for u, body first. */
    method Write(u: string, body: string, meta: string) returns (r: WriteResult)
      requires Valid() && now.task.Idle?
      modifies this`files, this`now, this`trace
      ensures Valid() && old(trace) <= trace && now.task.Idle?
      ensures healthy ==> r == Complete
      ensures Same(files, Written(old(files), keyOf(u), body, meta, r), keyOf(u))
    {
      var h := keyOf(u);
      var made := Try();
      if !made {
        return Unwritten;            // MkdirAll failed
      }
      Advance(BeginWrite(h, body, meta));
      ghost var begun := now;
      var ok := WriteFileAtomic(BodyName(h), body);
      r := Unwritten;
      if ok {
        ghost var half := now;
        ok := WriteFileAtomic(MetaName(h), meta);
        r := if ok then Complete else Torn;
        SecondHalf(begun, half, now);
      } else {
        StoppedSame(begun, now);
      }
    }

    /** One name of the listing: skipped, removed, or found unremovable. */
    method SweepOne(name: string, keepSet: set<string>) returns (ok: bool, gone: bool)
      requires Valid() && now.task.Sweeping? && now.task.keep == keepSet
      requires now.task.todo != [] && now.task.todo[0] == name
      modifies this`files, this`now, this`trace
      ensures Valid() && old(trace) <= trace
      ensures now.task == if ok then old(now.task).(todo := old(now.task).todo[1..]) else Idle
      ensures healthy ==> ok
      ensures gone ==> ok && name !in keepSet && IsCacheFile(name)
      ensures ok && !gone ==> name in keepSet || !IsCacheFile(name)
      ensures files == if gone then old(files) - {name} else old(files)
    {
      var cacheFile := IsCacheFilename(name);
      if name in keepSet || !cacheFile {
        Advance(SweepNext(true));
        return true, false;
      }
      ok := Try();
      gone := ok;
      if ok {
        files := files - {name};
      }
      Advance(SweepNext(ok));
    }

    /** The loop over the listing. */
    method SweepAll(names: seq<string>, keepSet: set<string>) returns (ok: bool, removed: nat)
      requires Valid() && now.task == Sweeping(keepSet, names) && Sorted(names)
      requires forall j :: 0 <= j < |names| ==> names[j] in files
      modifies this`files, this`now, this`trace
      ensures Valid() && old(trace) <= trace
      ensures now.task == if ok then Sweeping(keepSet, []) else Idle
      ensures healthy ==> ok
      ensures Pruned(old(files), files, keepSet) && removed == |old(files)| - |files|
    {
      removed := 0;
      for i := 0 to |names|
        invariant Valid() && old(trace) <= trace && now.task == Sweeping(keepSet, names[i..])
        invariant Pruned(old(files), files, keepSet) && removed == |old(files)| - |files|
        invariant forall j :: i <= j < |names| ==> names[j] in files
      {
        ghost var before := files;
        var gone;
        assert names[i..][1..] == names[i + 1..];
        ok, gone := SweepOne(names[i], keepSet);
        if !ok {
          return;
        }
        if gone {
          removed := removed + 1;
          RemoveOne(old(files), before, names[i], keepSet);
        }
        SortedDistinct(names, i);
      }
      ok := true;
    }

    /** Remove every cache file that belongs to none of the urls in keep: what belongs
        to one of them, and every foreign file, stays as it is. */
    method Sweep(keep: seq<string>, dir: Listing) returns (r: SweepResult)
      requires Valid() && now.task.Idle?
      requires dir.Names? ==> Sorted(dir.names) && files.Keys == set n | n in dir.names
      modifies this`files, this`now, this`trace
      ensures Valid() && old(trace) <= trace && now.task.Idle?
      ensures forall u :: u in keep ==>
        Kept(old(files), files, keyOf(u) + ".txt") && Kept(old(files), files, keyOf(u) + ".meta.json")
      ensures forall n :: !IsCacheFile(n) ==> Kept(old(files), files, n)
      ensures forall n :: n in files ==> Kept(old(files), files, n)
      ensures r.Swept? && dir.Names? ==> forall n :: n in files && IsCacheFile(n) ==> Wanted(keep, n)
      ensures r.removed == |old(files)| - |files|
      ensures healthy && dir.Names? ==> r.Swept?
      ensures !dir.Names? ==> files == old(files) && (r.Swept? <==> dir.Missing?)
    {
      if !dir.Names? {
        return if dir.Missing? then Swept(0) else SweepFailed(0);
      }
      r := SweepNames(Stems(keep), dir.names);
      KeepNamesAre(keep);
      PrunedKept(old(files), files, KeepNames(Stems(keep)));
    }

    /** The sweep over a listing. */
    method SweepNames(stems: set<string>, names: seq<string>) returns (r: SweepResult)
      requires Valid() && now.task.Idle? && forall h :: h in stems ==> IsStem(h)
      requires Sorted(names) && files.Keys == set n | n in names
      modifies this`files, this`now, this`trace
      ensures Valid() && old(trace) <= trace && now.task.Idle?
      ensures healthy ==> r.Swept?
      ensures Pruned(old(files), files, KeepNames(stems)) && r.removed == |old(files)| - |files|
      ensures r.Swept? ==> forall n :: n in files && IsCacheFile(n) ==> n in KeepNames(stems)
    {
      var keepSet := KeepNames(stems);
      Advance(BeginSweep(stems, names));
      forall j | 0 <= j < |names| ensures names[j] in files {
        assert names[j] in files.Keys;
      }
      var ok, removed := SweepAll(names, keepSet);
      if !ok {
        return SweepFailed(removed);
      }
      forall n | n in files && IsCacheFile(n) ensures n in keepSet { SweepComplete(now, n); }
      Advance(SweepEnd);
      return Swept(removed);
    }

    /** The body or the sidecar of some url. */
    ghost predicate Wanted(urls: seq<string>, name: string)
      reads this
    {
      exists u :: u in urls && (name == keyOf(u) + ".txt" || name == keyOf(u) + ".meta.json")
    }

    lemma KeepNamesAre(urls: seq<string>)
      ensures forall n :: n in KeepNames(Stems(urls)) <==> Wanted(urls, n)
      ensures forall u :: u in urls ==>
        keyOf(u) + ".txt" in KeepNames(Stems(urls)) && keyOf(u) + ".meta.json" in KeepNames(Stems(urls))
    {
      forall u | u in urls
        ensures keyOf(u) + ".txt" in KeepNames(Stems(urls)) && keyOf(u) + ".meta.json" in KeepNames(Stems(urls))
      {
        assert keyOf(u) in Stems(urls);
        assert BodyName(keyOf(u)) in KeepNames(Stems(urls)) && MetaName(keyOf(u)) in KeepNames(Stems(urls));
      }
      forall n | n in KeepNames(Stems(urls)) ensures Wanted(urls, n) {
        var h :| h in Stems(urls) && (n == BodyName(h) || n == MetaName(h));
        var u :| u in urls && keyOf(u) == h;
      }
    }

    function Stems(urls: seq<string>): set<string>
      reads this
    {
      set u | u in urls :: keyOf(u)
    }
  }

  /** A write is under way in s and still in s', at pc; only its temporary file changed. */
  ghost predicate Moved(s: State, s': State, pc: Pc) {
    s.task.Writing? && s'.task == s.task.(pc := pc) && SameBut(s.files, s'.files, TmpName(s.task.Path()))
  }

  /** The write under way in s has been given up. */
  ghost predicate Stopped(s: State, s': State) {
    s.task.Writing? && s'.task.Idle? && SameBut(s.files, s'.files, TmpName(s.task.Path()))
  }

  /** The file being written in s is in place in s'. */
  ghost predicate Placed(s: State, s': State) {
    && s.task.Writing?
    && s'.task == (if s.task.part.Body? then s.task.(part := Meta, pc := Opening) else Idle)
    && SameBut(s.files[s.task.Path() := s.task.Data()], s'.files, TmpName(s.task.Path()))
  }

  lemma MovedOn(s: State, m: State, s': State, pc: Pc)
    requires s.task.Writing? && m.task.Writing? && m.task == s.task.(pc := m.task.pc)
    requires SameBut(s.files, m.files, TmpName(s.task.Path()))
    ensures Moved(m, s', pc) ==> Moved(s, s', pc)
    ensures Stopped(m, s') ==> Stopped(s, s')
    ensures Placed(m, s') ==> Placed(s, s')
  {
    var p, d := s.task.Path(), s.task.Data();
    assert TmpName(p) != p;
    assert s.files[p := d] - {TmpName(p)} == (s.files - {TmpName(p)})[p := d];
    assert m.files[p := d] - {TmpName(p)} == (m.files - {TmpName(p)})[p := d];
  }

  lemma StoppedSame(s: State, s': State)
    requires Stopped(s, s')
    ensures Same(s'.files, s.files, s.task.stem)
  {
    OneTmp(s.files, s'.files, s.task.stem, s.task.part);
  }

  lemma OneTmp(a: Files, b: Files, h: string, part: Part)
    requires SameBut(a, b, TmpName(if part.Body? then BodyName(h) else MetaName(h)))
    ensures Same(b, a, h)
  {
    var tmp := TmpName(if part.Body? then BodyName(h) else MetaName(h));
    var tmps := {TmpName(BodyName(h)), TmpName(MetaName(h))};
    assert a - tmps == (a - {tmp}) - tmps && b - tmps == (b - {tmp}) - tmps;
  }

  /** The sidecar half of a Write, after the body half went well. */
  lemma SecondHalf(s: State, half: State, s': State)
    requires s.task.Writing? && s.task.part.Body? && IsStem(s.task.stem) && Placed(s, half)
    ensures var t := s.task;
      && (Placed(half, s') ==> Same(s'.files, Written(s.files, t.stem, t.body, t.meta, Complete), t.stem))
      && (Stopped(half, s') ==> Same(s'.files, Written(s.files, t.stem, t.body, t.meta, Torn), t.stem))
  {
    var t := s.task;
    var h, tmps := t.stem, {TmpName(BodyName(t.stem)), TmpName(MetaName(t.stem))};
    var withBody := s.files[BodyName(h) := t.body];
    OneTmp(withBody, half.files, h, Body);
    if Placed(half, s') {
      OneTmp(half.files[MetaName(h) := t.meta], s'.files, h, Meta);
      TmpIsNeither(h, Body, h);
      TmpIsNeither(h, Meta, h);
      assert half.files[MetaName(h) := t.meta] - tmps == (half.files - tmps)[MetaName(h) := t.meta];
      assert withBody[MetaName(h) := t.meta] - tmps == (withBody - tmps)[MetaName(h) := t.meta];
    }
    if Stopped(half, s') {
      OneTmp(half.files, s'.files, h, Meta);
    }
  }

  lemma {:induction false} LessIrreflexive(a: string)
    ensures !Less(a, a)
  {
    if a != [] { LessIrreflexive(a[1..]); }
  }

  lemma SortedDistinct(names: seq<string>, i: nat)
    requires Sorted(names) && i < |names|
    ensures forall j :: i < j < |names| ==> names[j] != names[i]
  {
    LessIrreflexive(names[i]);
  }

  /** after is before less some cache files that are not kept. */
  ghost predicate Pruned(before: Files, after: Files, keep: set<string>) {
    && (forall n :: n in after ==> n in before && after[n] == before[n])
    && (forall n :: n in before && n !in after ==> IsCacheFile(n) && n !in keep)
  }

  /** The file is after as it was before. */
  predicate Kept(before: Files, after: Files, n: string) {
    (n in before <==> n in after) && (n in before ==> after[n] == before[n])
  }

  lemma PrunedKept(before: Files, after: Files, keep: set<string>)
    requires Pruned(before, after, keep)
    ensures forall n :: n in keep || !IsCacheFile(n) || n in after ==> Kept(before, after, n)
  {
  }

  lemma RemoveOne(was: Files, files: Files, name: string, keep: set<string>)
    requires Pruned(was, files, keep) && name in files && IsCacheFile(name) && name !in keep
    ensures Pruned(was, files - {name}, keep) && |files - {name}| == |files| - 1
  {
    assert (files - {name}).Keys == files.Keys - {name};
  }

  predicate SameBut(a: Files, b: Files, tmp: string) { a - {tmp} == b - {tmp} }

  /** The directory after a Write that ended in r, temporary files aside. */
  function Written(files: Files, h: string, body: string, meta: string, r: WriteResult): Files {
    match r
    case Complete => files[BodyName(h) := body][MetaName(h) := meta]
    case Unwritten => files
    case Torn => files[BodyName(h) := body]
  }

  /** Equal but for temporary files. */
  ghost predicate Agree(a: Files, b: Files) {
    forall name :: !IsTmp(name) ==> (name in a <==> name in b) && (name in a ==> a[name] == b[name])
  }

  lemma SameAgrees(a: Files, b: Files, h: string)
    requires IsStem(h) && Same(a, b, h)
    ensures Agree(a, b)
  {
    FourNames(h);
    NamedAs(h, 2);
    NamedAs(h, 3);
    var tmps := {TmpName(BodyName(h)), TmpName(MetaName(h))};
    forall name | !IsTmp(name) ensures (name in a <==> name in b) && (name in a ==> a[name] == b[name]) {
      assert name in a <==> name in a - tmps;
      assert name in b <==> name in b - tmps;
    }
  }

  // ------------------------------------------------- a Write cut short

  /** What a Write of (h, body, meta) over files has done by state s. */
  ghost predicate WriteReached(files: Files, h: string, body: string, meta: string, s: State) {
    match s.task
    case Idle => exists r :: Agree(s.files, Written(files, h, body, meta, r))
    case Writing(h', body', meta', part, _) =>
      && h' == h && body' == body && meta' == meta
      && Agree(s.files, Written(files, h, body, meta, if part.Body? then Unwritten else Torn))
    case Sweeping(_, _) => false
  }

  /** Touching a temporary file does not show. */
  lemma TmpAgrees(a: Files, h: string, part: Part, data: string)
    requires IsStem(h)
    ensures var tmp := TmpName(if part.Body? then BodyName(h) else MetaName(h));
      Agree(a, a[tmp := data]) && Agree(a, a - {tmp})
  {
    FourNames(h);
    NamedAs(h, 2);
    NamedAs(h, 3);
  }

  lemma AgreeTrans(a: Files, b: Files, c: Files)
    requires Agree(a, b) && Agree(b, c)
    ensures Agree(a, c) && Agree(b, a)
  {
  }

  /** A rename puts the whole file in place. */
  lemma RenameReached(files: Files, h: string, body: string, meta: string, s: State)
    requires Inv(s) && At(s, Renaming) && WriteReached(files, h, body, meta, s)
    ensures WriteReached(files, h, body, meta, Apply(s, Rename(true)))
  {
    var t := s.task;
    var tmp, path := TmpName(t.Path()), t.Path();
    TmpAgrees(s.files, h, t.part, "");
    AgreeTrans(s.files, s.files - {tmp}, s.files - {tmp});
    AgreeTrans(s.files - {tmp}, s.files, Written(files, h, body, meta, if t.part.Body? then Unwritten else Torn));
    AgreeSet(s.files - {tmp}, Written(files, h, body, meta, if t.part.Body? then Unwritten else Torn), path, t.Data());
    var r := if t.part.Body? then Torn else Complete;
    assert Agree(Apply(s, Rename(true)).files, Written(files, h, body, meta, r));
  }

  lemma AgreeSet(a: Files, b: Files, name: string, data: string)
    requires Agree(a, b)
    ensures Agree(a[name := data], b[name := data])
  {
  }

  /** A crash shows in temporary files alone. */
  lemma CrashAgrees(s: State, left: Files)
    requires Inv(s) && Enabled(s, Crash(left))
    ensures Agree(Apply(s, Crash(left)).files, s.files)
  {
  }

  lemma CrashReached(files: Files, h: string, body: string, meta: string, s: State, left: Files)
    requires WriteReached(files, h, body, meta, s) && Enabled(s, Crash(left))
    requires Agree(Apply(s, Crash(left)).files, s.files)
    ensures WriteReached(files, h, body, meta, Apply(s, Crash(left)))
  {
    var r :| Agree(s.files, Written(files, h, body, meta, r));
    AgreeTrans(Apply(s, Crash(left)).files, s.files, Written(files, h, body, meta, r));
  }

  lemma StepReached(files: Files, h: string, body: string, meta: string, s: State, step: Step)
    requires Inv(s) && WriteReached(files, h, body, meta, s)
    requires Enabled(s, step) && !step.BeginWrite? && !step.BeginSweep?
    ensures WriteReached(files, h, body, meta, Apply(s, step))
  {
    if step.Rename? && step.ok {
      RenameReached(files, h, body, meta, s);
    } else if step.Crash? {
      CrashAgrees(s, step.left);
      CrashReached(files, h, body, meta, s, step.left);
    } else if s.task.Writing? {
      var s', r := Apply(s, step), if s.task.part.Body? then Unwritten else Torn;
      var tmp := TmpName(s.task.Path());
      assert s'.files == s.files || s'.files == s.files - {tmp} || s'.files == s.files[tmp := s'.files[tmp]];
      TmpAgrees(s.files, h, s.task.part, if tmp in s'.files then s'.files[tmp] else "");
      AgreeTrans(s.files, s'.files, s'.files);
      AgreeTrans(s'.files, s.files, Written(files, h, body, meta, r));
    }
  }

  /** However a Write ends, by success, by a failing call or by a crash at any point,
      the directory is that of one of the three results, temporary files aside. */
  lemma {:induction false} WriteRun(s: State, h: string, body: string, meta: string, steps: seq<Step>)
    requires Inv(s) && s.task.Idle? && Legal(s, steps) && steps != [] && steps[0] == BeginWrite(h, body, meta)
    requires forall i :: 1 <= i < |steps| ==> !steps[i].BeginWrite? && !steps[i].BeginSweep?
    ensures WriteReached(s.files, h, body, meta, Run(s, steps)) && Inv(Run(s, steps))
  {
    var n := |steps| - 1;
    if n == 0 {
      assert steps[..0] == [];
      StepInv(s, steps[0]);
    } else {
      WriteRun(s, h, body, meta, steps[..n]);
      StepReached(s.files, h, body, meta, Run(s, steps[..n]), steps[n]);
      StepInv(Run(s, steps[..n]), steps[n]);
    }
  }

  /** Equal but for the two temporary files of stem h. */
  predicate Same(a: Files, b: Files, h: string) {
    var tmps := {TmpName(BodyName(h)), TmpName(MetaName(h))};
    a - tmps == b - tmps
  }
}
