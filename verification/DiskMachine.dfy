/** The blocklist store on disk as a machine of single file-system steps, any of
    which may fail, with a crash possible between any two. */
module DiskMachine {
  import opened Dns
  import opened Text

  type Files = map<string, string>

  // ------------------------------------------------------------ file names

  predicate HexDigit(c: char) { '0' <= c <= '9' || 'a' <= c <= 'f' || 'A' <= c <= 'F' }

  /** The stem of a cache file: 64 hexadecimal digits. */
  predicate IsStem(h: string) { |h| == 64 && forall i :: 0 <= i < |h| ==> HexDigit(h[i]) }

  function BodyName(h: string): string { h + ".txt" }
  function MetaName(h: string): string { h + ".meta.json" }
  function TmpName(name: string): string { name + ".tmp" }

  predicate StemWith(name: string, suffix: string) {
    HasSuffix(name, suffix) && IsStem(name[..|name| - |suffix|])
  }

  const SUFFIXES: seq<string> := [".txt", ".meta.json", ".txt.tmp", ".meta.json.tmp"]

  /** A name this store may have created. */
  predicate IsCacheFile(name: string) {
    exists i :: 0 <= i < |SUFFIXES| && StemWith(name, SUFFIXES[i])
  }

  /** No name carries two of the suffixes. */
  lemma SuffixUnique(name: string, i: nat, j: nat)
    requires i < |SUFFIXES| && j < |SUFFIXES|
    requires HasSuffix(name, SUFFIXES[i]) && HasSuffix(name, SUFFIXES[j])
    ensures i == j
  {
    var n, a, b := |name|, SUFFIXES[i], SUFFIXES[j];
    assert name[n - 1] == name[n - |a|..][|a| - 1] == a[|a| - 1];
    assert name[n - 1] == name[n - |b|..][|b| - 1] == b[|b| - 1];
    assert |a| > 4 ==> name[n - 5] == name[n - |a|..][|a| - 5] == a[|a| - 5];
    assert |b| > 4 ==> name[n - 5] == name[n - |b|..][|b| - 5] == b[|b| - 5];
  }

  /** isCacheFilename: the first suffix that fits decides. */
  method IsCacheFilename(name: string) returns (r: bool)
    ensures r == IsCacheFile(name)
    ensures r <==> exists h :: StoreName(name, h)
  {
    CacheFileExactly(name);
    for i := 0 to |SUFFIXES|
      invariant forall j :: 0 <= j < i ==> !HasSuffix(name, SUFFIXES[j])
    {
      var suffix := SUFFIXES[i];
      if !HasSuffix(name, suffix) {
        continue;
      }
      forall j | 0 <= j < |SUFFIXES| && HasSuffix(name, SUFFIXES[j]) ensures j == i {
        SuffixUnique(name, i, j);
      }
      var stem := name[..|name| - |suffix|];
      if |stem| != 64 {
        return false;
      }
      return forall i :: 0 <= i < |stem| ==> HexDigit(stem[i]);
    }
    return false;
  }

  lemma NamedAs(h: string, i: nat)
    requires IsStem(h) && i < |SUFFIXES|
    ensures StemWith(h + SUFFIXES[i], SUFFIXES[i]) && IsCacheFile(h + SUFFIXES[i])
  {
    var name := h + SUFFIXES[i];
    assert name[..|name| - |SUFFIXES[i]|] == h && name[|name| - |SUFFIXES[i]|..] == SUFFIXES[i];
  }

  /** Names built from stems are equal only if stem and suffix are. */
  lemma NameInjective(h: string, i: nat, h': string, j: nat)
    requires IsStem(h) && IsStem(h') && i < |SUFFIXES| && j < |SUFFIXES|
    requires h + SUFFIXES[i] == h' + SUFFIXES[j]
    ensures h == h' && i == j
  {
    NamedAs(h, i);
    NamedAs(h', j);
    SuffixUnique(h + SUFFIXES[i], i, j);
    assert h == (h + SUFFIXES[i])[..64] && h' == (h' + SUFFIXES[j])[..64];
  }

  /** The four names of one stem, as the functions above build them. */
  lemma FourNames(h: string)
    ensures BodyName(h) == h + SUFFIXES[0] && MetaName(h) == h + SUFFIXES[1]
    ensures TmpName(BodyName(h)) == h + SUFFIXES[2] && TmpName(MetaName(h)) == h + SUFFIXES[3]
  {
  }

  /** Spelled out: 64 hexadecimal digits and one of the four endings. */
  ghost predicate StoreName(name: string, h: string) {
    && |h| == 64 && (forall i :: 0 <= i < 64 ==> h[i] in "0123456789abcdefABCDEF")
    && (name == h + ".txt" || name == h + ".meta.json" || name == h + ".txt.tmp" || name == h + ".meta.json.tmp")
  }

  lemma HexDigits(c: char)
    ensures HexDigit(c) <==> c in "0123456789abcdefABCDEF"
  {
    var all := "0123456789abcdefABCDEF";
    if '0' <= c <= '9' { assert all[c as int - '0' as int] == c; }
    if 'a' <= c <= 'f' { assert all[10 + c as int - 'a' as int] == c; }
    if 'A' <= c <= 'F' { assert all[16 + c as int - 'A' as int] == c; }
  }

  lemma StemExactly(h: string)
    ensures IsStem(h) <==> |h| == 64 && forall i :: 0 <= i < 64 ==> h[i] in "0123456789abcdefABCDEF"
  {
    forall i | 0 <= i < |h| ensures HexDigit(h[i]) <==> h[i] in "0123456789abcdefABCDEF" { HexDigits(h[i]); }
  }

  lemma CacheFileExactly(name: string)
    ensures IsCacheFile(name) <==> exists h :: StoreName(name, h)
  {
    if IsCacheFile(name) {
      var i :| 0 <= i < |SUFFIXES| && StemWith(name, SUFFIXES[i]);
      var h := name[..|name| - |SUFFIXES[i]|];
      assert name == h + SUFFIXES[i];
      StemNamed(name, h, i);
    }
    if h :| StoreName(name, h) {
      var i := NamedStem(name, h);
      NamedAs(h, i);
    }
  }

  lemma StemNamed(name: string, h: string, i: nat)
    requires i < |SUFFIXES| && IsStem(h) && name == h + SUFFIXES[i]
    ensures StoreName(name, h)
  {
    StemExactly(h);
  }

  lemma NamedStem(name: string, h: string) returns (i: nat)
    requires StoreName(name, h)
    ensures IsStem(h) && i < |SUFFIXES| && name == h + SUFFIXES[i]
  {
    StemExactly(h);
    i := if name == h + ".txt" then 0 else if name == h + ".meta.json" then 1
         else if name == h + ".txt.tmp" then 2 else 3;
  }

  /** A temporary file of some stem. */
  predicate IsTmp(name: string) { StemWith(name, SUFFIXES[2]) || StemWith(name, SUFFIXES[3]) }

  /** Bodies and sidecars are not temporary. */
  lemma NotTmp(h: string)
    requires IsStem(h)
    ensures !IsTmp(BodyName(h)) && !IsTmp(MetaName(h))
  {
    FourNames(h);
    forall i, j | 0 <= i < 2 <= j < 4 ensures !StemWith(h + SUFFIXES[i], SUFFIXES[j]) {
      NamedAs(h, i);
      if HasSuffix(h + SUFFIXES[i], SUFFIXES[j]) { SuffixUnique(h + SUFFIXES[i], i, j); }
    }
  }

  lemma TmpIsTmp(h: string, part: Part)
    requires IsStem(h)
    ensures IsTmp(TmpName(if part.Body? then BodyName(h) else MetaName(h)))
  {
    FourNames(h);
    NamedAs(h, 2);
    NamedAs(h, 3);
  }

  // ------------------------------------------------------- directory order

  /** Byte-wise string order, the order of a directory listing. */
  predicate Less(a: string, b: string) {
    if b == [] then false else if a == [] then true
    else a[0] < b[0] || (a[0] == b[0] && Less(a[1..], b[1..]))
  }

  lemma {:induction false} LessCommonPrefix(p: string, a: string, b: string)
    ensures Less(p + a, p + b) <==> Less(a, b)
  {
    if p == [] {
      assert p + a == a && p + b == b;
    } else {
      assert (p + a)[1..] == p[1..] + a && (p + b)[1..] == p[1..] + b;
      LessCommonPrefix(p[1..], a, b);
    }
  }

  /** A listing never shows a body before its sidecar. */
  lemma SidecarFirst(h: string)
    ensures !Less(BodyName(h), MetaName(h))
  {
    LessCommonPrefix(h, ".txt", ".meta.json");
    assert ".txt"[1..] == "txt" && ".meta.json"[1..] == "meta.json";
  }

  predicate Sorted(names: seq<string>) {
    forall i, j :: 0 <= i < j < |names| ==> Less(names[i], names[j])
  }

  // ------------------------------------------------------------ the machine

  datatype Part = Body | Meta
  datatype Pc = Opening | Filling | Syncing | Closing | Renaming | Cleaning

  datatype Task =
    | Idle
    | Writing(stem: string, body: string, meta: string, part: Part, pc: Pc)
    | Sweeping(keep: set<string>, todo: seq<string>)
  {
    function Path(): string
      requires Writing?
    {
      if part.Body? then BodyName(stem) else MetaName(stem)
    }

    function Data(): string
      requires Writing?
    {
      if part.Body? then body else meta
    }
  }

  /** bodies and metas remember every body and sidecar ever passed to Write, with its
      stem; dirty names the files whose contents have not been synced. */
  datatype State = State(files: Files, task: Task, bodies: set<(string, string)>, metas: set<(string, string)>,
                         dirty: set<string>)

  datatype Step =
    | BeginWrite(stem: string, body: string, meta: string)
    | Open(ok: bool)
    | FillTo(n: nat)          // the temporary file now holds the first n bytes
    | Filled(ok: bool)
    | Sync(ok: bool)
    | Close(ok: bool)
    | Rename(ok: bool)
    | Cleanup(removed: bool)
    | BeginSweep(stems: set<string>, listing: seq<string>)
    | SweepNext(ok: bool)
    | SweepEnd
    | Kill                    // the process dies
    | Crash(left: Files)      // the machine dies; left is what becomes of the dirty files

  function KeepNames(stems: set<string>): set<string> {
    (set h | h in stems :: BodyName(h)) + (set h | h in stems :: MetaName(h))
  }

  predicate At(s: State, pc: Pc) { s.task.Writing? && s.task.pc == pc }

  predicate Enabled(s: State, step: Step) {
    match step
    case BeginWrite(h, _, _) => s.task.Idle? && IsStem(h)
    case Open(_) => At(s, Opening)
    case FillTo(n) => At(s, Filling) && n <= |s.task.Data()|
    case Filled(_) => At(s, Filling)
    case Sync(_) => At(s, Syncing)
    case Close(_) => At(s, Closing)
    case Rename(_) => At(s, Renaming) && TmpName(s.task.Path()) in s.files
    case Cleanup(_) => At(s, Cleaning)
    case BeginSweep(stems, listing) =>
      s.task.Idle? && Sorted(listing) && (forall h :: h in stems ==> IsStem(h)) &&
      s.files.Keys == set n | n in listing
    case SweepNext(_) => s.task.Sweeping? && s.task.todo != []
    case SweepEnd => s.task.Sweeping? && s.task.todo == []
    case Kill => true
    case Crash(left) => left.Keys <= s.dirty
  }

  /** Whether the sweep removes the next name of its listing. */
  predicate Doomed(task: Task)
    requires task.Sweeping? && task.todo != []
  {
    task.todo[0] !in task.keep && IsCacheFile(task.todo[0])
  }

  /** The file holds data that is not synced. */
  function Fill(s: State, name: string, data: string): State {
    s.(files := s.files[name := data], dirty := s.dirty + {name})
  }

  function Remove(s: State, name: string): State { s.(files := s.files - {name}, dirty := s.dirty - {name}) }

  /** The file moves with its contents, synced or not. */
  function Move(s: State, name: string, name': string): State
    requires name in s.files
  {
    s.(files := (s.files - {name})[name' := s.files[name]],
       dirty := s.dirty - {name, name'} + if name in s.dirty then {name'} else {})
  }

  function Apply(s: State, step: Step): State
    requires Enabled(s, step)
  {
    var t := s.task;
    match step
    case BeginWrite(h, body, meta) =>
      s.(task := Writing(h, body, meta, Body, Opening), 
         bodies := s.bodies + {(h, body)}, metas := s.metas + {(h, meta)})
    case Open(ok) =>
      if ok then Fill(s, TmpName(t.Path()), "").(task := t.(pc := Filling)) else s.(task := Idle)
    case FillTo(n) => Fill(s, TmpName(t.Path()), t.Data()[..n])
    case Filled(ok) =>
      if ok then Fill(s, TmpName(t.Path()), t.Data()).(task := t.(pc := Syncing))
      else s.(task := t.(pc := Cleaning))
    case Sync(ok) =>
      if ok then s.(dirty := s.dirty - {TmpName(t.Path())}, task := t.(pc := Closing))
      else s.(task := t.(pc := Cleaning))
    case Close(ok) => s.(task := t.(pc := if ok then Renaming else Cleaning))
    case Rename(ok) =>
      if !ok then s.(task := Idle)
      else
        Move(s, TmpName(t.Path()), t.Path())
          .(task := if t.part.Body? then t.(part := Meta, pc := Opening) else Idle)
    case Cleanup(removed) => (if removed then Remove(s, TmpName(t.Path())) else s).(task := Idle)
    case BeginSweep(stems, listing) => s.(task := Sweeping(KeepNames(stems), listing))
    case SweepNext(ok) =>
      if !Doomed(t) then s.(task := t.(todo := t.todo[1..]))
      else if ok then Remove(s, t.todo[0]).(task := t.(todo := t.todo[1..]))
      else s.(task := Idle)
    case SweepEnd => s.(task := Idle)
    case Kill => s.(task := Idle)
    case Crash(left) => s.(files := (s.files - s.dirty) + left, dirty := {}, task := Idle)
  }

  predicate Legal(s: State, steps: seq<Step>)
    decreases |steps|, 0
  {
    steps == [] ||
    (Legal(s, steps[..|steps| - 1]) && Enabled(Run(s, steps[..|steps| - 1]), steps[|steps| - 1]))
  }

  function Run(s: State, steps: seq<Step>): State
    requires Legal(s, steps)
    decreases |steps|, 1
  {
    if steps == [] then s else Apply(Run(s, steps[..|steps| - 1]), steps[|steps| - 1])
  }

  // ------------------------------------------------------------- invariant

  /** A body on disk is a whole body once passed to Write for that stem, and so
      is a sidecar; and no sidecar is without its body. */
  ghost predicate Safe(s: State) {
    forall h {:trigger SafeStem(s, h)} :: IsStem(h) ==> SafeStem(s, h)
  }

  predicate SafeStem(s: State, h: string) {
    && (BodyName(h) in s.files ==> (h, s.files[BodyName(h)]) in s.bodies)
    && (MetaName(h) in s.files ==> (h, s.files[MetaName(h)]) in s.metas && BodyName(h) in s.files)
  }

  ghost predicate TaskOk(s: State) {
    match s.task
    case Idle => true
    case Writing(h, body, meta, part, pc) =>
      && IsStem(h) && (h, body) in s.bodies && (h, meta) in s.metas
      && (pc.Syncing? || pc.Closing? || pc.Renaming? ==>
            TmpName(s.task.Path()) in s.files && s.files[TmpName(s.task.Path())] == s.task.Data())
      && (part.Meta? ==> BodyName(h) in s.files && s.files[BodyName(h)] == body)
    case Sweeping(keep, todo) =>
      && Sorted(todo)
      && (forall h {:trigger Paired(keep, h)} :: IsStem(h) ==> Paired(keep, h))
      && (forall n {:trigger Accounted(s.files, keep, todo, n)} :: Accounted(s.files, keep, todo, n))
  }

  /** A stem's body and sidecar are kept together. */
  predicate Paired(keep: set<string>, h: string) { BodyName(h) in keep <==> MetaName(h) in keep }

  /** A cache file that is not kept is still to be visited. */
  predicate Accounted(files: Files, keep: set<string>, todo: seq<string>, n: string) {
    n in files && IsCacheFile(n) && n !in keep ==> n in todo
  }

  /** Nothing but temporary files is dirty, and the one about to be renamed is not. */
  predicate DirtyOk(s: State) {
    && (forall n :: n in s.dirty ==> IsTmp(n))
    && (At(s, Closing) || At(s, Renaming) ==> TmpName(s.task.Path()) !in s.dirty)
  }

  ghost predicate Inv(s: State) { Safe(s) && TaskOk(s) && DirtyOk(s) }

  lemma StepDirtyOk(s: State, step: Step)
    requires Inv(s) && Enabled(s, step)
    ensures DirtyOk(Apply(s, step))
  {
    if s.task.Writing? { TmpIsTmp(s.task.stem, s.task.part); }
  }

  /** What a crash may do to dirty files is safe. */
  lemma CrashSafe(s: State, left: Files)
    requires Inv(s) && Enabled(s, Crash(left))
    ensures Safe(Apply(s, Crash(left)))
  {
    var s' := Apply(s, Crash(left));
    forall h | IsStem(h) ensures SafeStem(s', h) {
      NotTmp(h);
      assert SafeStem(s, h);
    }
  }

  /** A temporary name is never the body or the sidecar of any stem. */
  lemma TmpIsNeither(h: string, part: Part, h': string)
    requires IsStem(h) && IsStem(h')
    ensures var tmp := TmpName(if part.Body? then BodyName(h) else MetaName(h));
      tmp != BodyName(h') && tmp != MetaName(h')
  {
  }

  /** Bodies and sidecars of stems never share a name. */
  lemma NamesApart(h: string, h': string)
    requires IsStem(h) && IsStem(h')
    ensures BodyName(h) != MetaName(h')
    ensures BodyName(h) == BodyName(h') ==> h == h'
    ensures MetaName(h) == MetaName(h') ==> h == h'
  {
    FourNames(h);
    FourNames(h');
    if BodyName(h) == BodyName(h') { NameInjective(h, 0, h', 0); }
    if MetaName(h) == MetaName(h') { NameInjective(h, 1, h', 1); }
  }

  /** Changing nothing but the temporary file of the running write is safe. */
  lemma TmpChangeSafe(s: State, s': State)
    requires Safe(s) && s.task.Writing? && IsStem(s.task.stem)
    requires s'.bodies == s.bodies && s'.metas == s.metas
    requires forall n :: n != TmpName(s.task.Path()) ==>
      (n in s'.files <==> n in s.files) && (n in s.files ==> s'.files[n] == s.files[n])
    ensures Safe(s')
  {
    forall h | IsStem(h) ensures SafeStem(s', h) {
      TmpIsNeither(s.task.stem, s.task.part, h);
      assert SafeStem(s, h);
    }
  }

  lemma RenameSafe(s: State)
    requires Inv(s) && At(s, Renaming)
    ensures Safe(Apply(s, Rename(true)))
  {
    var s', t := Apply(s, Rename(true)), s.task;
    forall h | IsStem(h) ensures SafeStem(s', h) {
      TmpIsNeither(t.stem, t.part, h);
      NamesApart(t.stem, h);
      NamesApart(h, t.stem);
      assert SafeStem(s, h);
    }
  }

  /** Removing a doomed body is safe because its sidecar went first. */
  lemma SweepSafe(s: State)
    requires Inv(s) && s.task.Sweeping? && s.task.todo != [] && Doomed(s.task)
    ensures Safe(Apply(s, SweepNext(true)))
  {
    var s', t := Apply(s, SweepNext(true)), s.task;
    var name := t.todo[0];
    forall h | IsStem(h) ensures SafeStem(s', h) {
      NamesApart(h, h);
      assert SafeStem(s, h);
      if name == BodyName(h) && MetaName(h) in s.files {
        FourNames(h);
        NamedAs(h, 1);
        assert Paired(t.keep, h) && Accounted(s.files, t.keep, t.todo, MetaName(h));
        var j :| 0 <= j < |t.todo| && t.todo[j] == MetaName(h);
        SidecarFirst(h);
      }
    }
  }

  lemma SweepTaskOk(s: State, ok: bool)
    requires Inv(s) && s.task.Sweeping? && s.task.todo != []
    ensures TaskOk(Apply(s, SweepNext(ok)))
  {
    var s', t := Apply(s, SweepNext(ok)), s.task;
    if s'.task.Sweeping? {
      forall n ensures Accounted(s'.files, t.keep, t.todo[1..], n) {
        if n in s'.files && IsCacheFile(n) && n !in t.keep {
          assert Accounted(s.files, t.keep, t.todo, n);
          var j :| 0 <= j < |t.todo| && t.todo[j] == n;
          assert t.todo[1..][j - 1] == n;
        }
      }
      forall h | IsStem(h) ensures Paired(s'.task.keep, h) { assert Paired(t.keep, h); }
    }
  }

  lemma KeepNamesPaired(stems: set<string>, h: string)
    requires IsStem(h) && forall x :: x in stems ==> IsStem(x)
    ensures BodyName(h) in KeepNames(stems) <==> h in stems
    ensures MetaName(h) in KeepNames(stems) <==> h in stems
  {
    forall x | x in stems ensures BodyName(x) != MetaName(h) && MetaName(x) != BodyName(h)
    ensures (BodyName(x) == BodyName(h) ==> x == h) && (MetaName(x) == MetaName(h) ==> x == h) {
      NamesApart(x, h);
      NamesApart(h, x);
    }
  }

  lemma BeginSweepOk(s: State, step: Step)
    requires Inv(s) && step.BeginSweep? && Enabled(s, step)
    ensures TaskOk(Apply(s, step))
  {
    var keep := KeepNames(step.stems);
    forall h | IsStem(h) ensures Paired(keep, h) { KeepNamesPaired(step.stems, h); }
    forall n ensures Accounted(s.files, keep, step.listing, n) {
      if n in s.files { assert n in s.files.Keys; }
    }
  }

  /** The invariant survives every step, including every failure and a crash anywhere. */
  lemma StepInv(s: State, step: Step)
    requires Inv(s) && Enabled(s, step)
    ensures Inv(Apply(s, step))
  {
    var s' := Apply(s, step);
    StepDirtyOk(s, step);
    if !step.BeginSweep? && !step.SweepNext? { WritingTaskOk(s, step); }
    match step
    case BeginWrite(_, _, _) =>
      forall h | IsStem(h) ensures SafeStem(s', h) { assert SafeStem(s, h); }
    case BeginSweep(_, _) =>
      BeginSweepOk(s, step);
      SafeSame(s, s');
    case SweepNext(ok) =>
      SweepTaskOk(s, ok);
      if Doomed(s.task) && ok { SweepSafe(s); } else { SafeSame(s, s'); }
    case SweepEnd => SafeSame(s, s');
    case Rename(ok) =>
      if ok { RenameSafe(s); } else { SafeSame(s, s'); }
    case Kill => SafeSame(s, s');
    case Crash(left) => CrashSafe(s, left);
    case _ => TmpChangeSafe(s, s');
  }

  lemma SafeSame(s: State, s': State)
    requires Safe(s) && s'.files == s.files && s'.bodies == s.bodies && s'.metas == s.metas
    ensures Safe(s')
  {
    forall h | IsStem(h) ensures SafeStem(s', h) { assert SafeStem(s, h); }
  }

  lemma WritingTaskOk(s: State, step: Step)
    requires Inv(s) && Enabled(s, step) && !step.BeginSweep? && !step.SweepNext?
    ensures TaskOk(Apply(s, step))
  {
    if s.task.Writing? {
      TmpIsNeither(s.task.stem, s.task.part, s.task.stem);
    }
  }

  /** Crash safety: from any good state, at every point of every run of writes
      and sweeps, with any step failing and a crash at any moment, each body and
      sidecar is whole and no sidecar lacks its body. */
  lemma {:induction false} CrashSafety(s: State, steps: seq<Step>)
    requires Inv(s) && Legal(s, steps)
    ensures forall n :: 0 <= n <= |steps| ==> Legal(s, steps[..n]) && Inv(Run(s, steps[..n]))
  {
    if steps != [] {
      var m := |steps| - 1;
      CrashSafety(s, steps[..m]);
      assert steps[..m][..m] == steps[..m] && steps[..|steps|] == steps;
      StepInv(Run(s, steps[..m]), steps[m]);
      forall n | 0 <= n <= |steps| ensures Legal(s, steps[..n]) && Inv(Run(s, steps[..n])) {
        if n <= m { assert steps[..m][..n] == steps[..n]; }
      }
    } else {
      assert forall n :: 0 <= n <= |steps| ==> steps[..n] == [];
    }
  }

  /** States i and i + 1 of a trace are one machine step apart. */
  ghost predicate Linked(trace: seq<State>, i: int)
    requires 0 <= i < |trace| - 1
  {
    exists step :: Enabled(trace[i], step) && trace[i + 1] == Apply(trace[i], step)
  }

  ghost predicate IsTrace(trace: seq<State>) {
    trace != [] && forall i {:trigger Linked(trace, i)} :: 0 <= i < |trace| - 1 ==> Linked(trace, i)
  }

  lemma ExtendTrace(trace: seq<State>, step: Step)
    requires IsTrace(trace) && Enabled(trace[|trace| - 1], step)
    ensures IsTrace(trace + [Apply(trace[|trace| - 1], step)])
  {
    var more := trace + [Apply(trace[|trace| - 1], step)];
    forall i | 0 <= i < |more| - 1 ensures Linked(more, i) {
      if i < |trace| - 1 {
        assert Linked(trace, i);
        var st :| Enabled(trace[i], st) && trace[i + 1] == Apply(trace[i], st);
        assert Enabled(more[i], st) && more[i + 1] == Apply(more[i], st);
      } else {
        assert Enabled(more[i], step) && more[i + 1] == Apply(more[i], step);
      }
    }
  }

  /** The same for a run given by the states it goes through. */
  lemma {:induction false} TraceSafe(trace: seq<State>, n: nat)
    requires IsTrace(trace) && Inv(trace[0]) && n < |trace|
    ensures Inv(trace[n])
  {
    if n > 0 {
      TraceSafe(trace, n - 1);
      assert Linked(trace, n - 1);
      var step :| Enabled(trace[n - 1], step) && trace[n] == Apply(trace[n - 1], step);
      StepInv(trace[n - 1], step);
    }
  }

  /** An empty directory is a good state. */
  lemma EmptyInv()
    ensures Inv(State(map[], Idle, {}, {}, {}))
  {
    var s := State(map[], Idle, {}, {}, {});
    forall h | IsStem(h) ensures SafeStem(s, h) { }
  }

  // ------------------------------------------------------------ what stays

  /** No step creates, changes or removes a file that is not a cache file. */
  lemma {:induction false} OthersUntouched(s: State, steps: seq<Step>, name: string)
    requires Inv(s) && Legal(s, steps) && !IsCacheFile(name)
    ensures name in Run(s, steps).files <==> name in s.files
    ensures name in s.files ==> Run(s, steps).files[name] == s.files[name]
  {
    if steps != [] {
      var m := |steps| - 1;
      OthersUntouched(s, steps[..m], name);
      CrashSafety(s, steps);
      StepLeavesOthers(Run(s, steps[..m]), steps[m], name);
    }
  }

  lemma StepLeavesOthers(s: State, step: Step, name: string)
    requires Inv(s) && Enabled(s, step) && !IsCacheFile(name)
    ensures var s' := Apply(s, step);
      (name in s'.files <==> name in s.files) && (name in s.files ==> s'.files[name] == s.files[name])
  {
    if s.task.Writing? {
      FourNames(s.task.stem);
      NamedAs(s.task.stem, 0);
      NamedAs(s.task.stem, 1);
      NamedAs(s.task.stem, 2);
      NamedAs(s.task.stem, 3);
    }
  }

  /** A sweep that reaches its end has left only kept cache files. */
  lemma SweepComplete(s: State, name: string)
    requires Inv(s) && Enabled(s, SweepEnd) && name in s.files && IsCacheFile(name)
    ensures name in s.task.keep
  {
    assert Accounted(s.files, s.task.keep, s.task.todo, name);
  }
}
