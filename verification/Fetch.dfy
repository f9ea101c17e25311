/** The HTTP fetcher: conditional requests against an origin, and what they
    leave on disk. */
module Fetch {
  import opened Dns
  import opened Matcher
  import opened Parse
  import opened DiskMachine
  import opened CacheStore

  const MAX_BODY := 64 * 1024 * 1024

  datatype CacheMeta = CacheMeta(url: string, etag: string, lastModified: string,
                                 fetchedAt: int, bytes: nat, entries: nat)

  const ZERO_META := CacheMeta("", "", "", 0, 0, 0)

  /** JSON, of which only the round trip is assumed. */
  datatype Codec = Codec(encode: CacheMeta -> string, decode: string -> Option<CacheMeta>)

  ghost predicate Faithful(c: Codec) { forall m :: c.decode(c.encode(m)) == Some(m) }

  /** What the origin currently serves; an empty validator means none is sent. */
  datatype Origin = Origin(body: string, etag: string, lastModified: string)

  /** Anything that can come back from one request. */
  datatype Reply =
    | TransportError
    | NotModified
    | Okay(body: string, etag: string, lastModified: string)
    | BrokenBody                 // status 200, but reading the body failed
    | OtherStatus(code: nat)

  datatype Outcome = Success | Unchanged | Failure

  /** ReadMeta: a missing, unreadable or corrupt sidecar counts as none. */
  function ReadMeta(files: Files, h: string, codec: Codec, readable: bool): CacheMeta {
    if !readable || MetaName(h) !in files then ZERO_META
    else match codec.decode(files[MetaName(h)])
      case None => ZERO_META
      case Some(m) => m
  }

  /** HTTPSource.Load: the parsed cached body, nothing if there is none. */
  function LoadEntries(files: Files, h: string): seq<string> {
    if BodyName(h) in files then ParseBody(files[BodyName(h)]) else []
  }

  /** A 200 body that may be stored: small enough, and empty or a real list. */
  predicate Acceptable(body: string) {
    |body| <= MAX_BODY && (body == "" || ParseBody(body) != [])
  }

  function MetaFor(url: string, r: Reply, at: int): CacheMeta
    requires r.Okay?
  {
    CacheMeta(url, r.etag, r.lastModified, at, |r.body|, |ParseBody(r.body)|)
  }

  /** FetchOne after the reply is in; w is how the Write, if any, ends. */
  function Fetched(files: Files, h: string, url: string, r: Reply, at: int, codec: Codec, w: WriteResult)
    : (Files, Outcome)
  {
    match r
    case NotModified => (files, Unchanged)
    case Okay(body, _, _) =>
      if !Acceptable(body) then (files, Failure)
      else (Written(files, h, body, codec.encode(MetaFor(url, r, at)), w), if w.Complete? then Success else Failure)
    case _ => (files, Failure)
  }

  /** One target of a cycle with what its fetch meets: the clock, whether the context
      is already cancelled, whether the sidecar can be read, and the reply the
      network gives to a request made with a sidecar's validators. */
  datatype Turn = Turn(url: string, at: int, cancelled: bool, readable: bool, ask: CacheMeta -> Reply) {
    /** A cancelled fetch ends like one that reached no server. */
    function Meets(prev: CacheMeta): Reply { if cancelled then TransportError else ask(prev) }
  }

  class Fetcher {
    const store: Store
    const codec: Codec

    constructor (store: Store, codec: Codec)
      ensures this.store == store && this.codec == codec
    {
      this.store, this.codec := store, codec;
    }

    /** One conditional GET, made with the validators of the sidecar that was read.
        Nothing is written unless an acceptable body came back. */
    method FetchOne(t: Turn) returns (outcome: Outcome, bytes: nat, entries: nat, ghost w: WriteResult)
      requires store.Valid() && store.now.task.Idle?
      modifies store`files, store`now, store`trace
      ensures store.Valid() && store.now.task.Idle? && old(store.trace) <= store.trace
      ensures
        var h := store.keyOf(t.url);
        var r := t.Meets(ReadMeta(old(store.files), h, codec, t.readable));
        var (files, o) := Fetched(old(store.files), h, t.url, r, t.at, codec, w);
        && outcome == o && Same(store.files, files, h)
        && (!(r.Okay? && Acceptable(r.body)) ==> store.files == old(store.files))
        && (outcome.Success? ==> bytes == |r.body| && entries == |ParseBody(r.body)|)
      ensures !outcome.Success? ==> bytes == 0 && entries == 0
      ensures t.cancelled ==> outcome == Failure && store.files == old(store.files)
      ensures store.healthy ==>
        var r := t.Meets(ReadMeta(old(store.files), store.keyOf(t.url), codec, t.readable));
        outcome == Success <==> r.Okay? && Acceptable(r.body)
    {
      outcome, bytes, entries, w := Failure, 0, 0, Unwritten;
      if t.cancelled {
        return;
      }
      var prev := ReadMeta(store.files, store.keyOf(t.url), codec, t.readable);
      var r := t.ask(prev);
      if r.NotModified? {
        outcome := Unchanged;
        return;
      }
      if !r.Okay? || |r.body| > MAX_BODY {
        return;
      }
      var parsed := ParseBody(r.body);
      if |r.body| > 0 && |parsed| == 0 {
        return;
      }
      var meta := CacheMeta(t.url, r.etag, r.lastModified, t.at, |r.body|, |parsed|);
      var wr := store.Write(t.url, r.body, codec.encode(meta));
      w := wr;
      if wr.Complete? {
        outcome, bytes, entries := Success, |r.body|, |parsed|;
      }
    }

    /** One cycle of Run: fetch every target in turn, and ask for a reload exactly
        if some fetch brought a new body.  The outcomes and the directory are those
        of the run of fetches `CycleEvents`, temporary files aside; and a cycle in
        which no fetch fails, against honest origins, leaves every target in sync.
        x and origins only say what surrounds the fetcher. */
    method Cycle(turns: seq<Turn>, ghost x: Setting, ghost origins: map<string, Origin>)
      returns (outcomes: seq<Outcome>, reload: bool, ghost ws: seq<WriteResult>)
      requires store.Valid() && store.now.task.Idle?
      requires x.keyOf == store.keyOf && x.codec == codec
      modifies store`files, store`now, store`trace
      ensures store.Valid() && store.now.task.Idle? && old(store.trace) <= store.trace
      ensures CycleDid(x, World(old(store.files), origins), turns, ws, outcomes, store.files)
      ensures reload <==> Success in outcomes
      ensures Sound(x, origins.Keys) && Dependable(x, World(old(store.files), origins)) &&
              HonestTurns(origins, turns) && Failure !in outcomes ==>
        forall i :: 0 <= i < |turns| ==> Synced(x, World(store.files, origins), turns[i].url)
    {
      outcomes, reload, ws := [], false, [];
      ghost var s := World(store.files, origins);
      for i := 0 to |turns|
        invariant store.Valid() && store.now.task.Idle? && old(store.trace) <= store.trace
        invariant CycleDid(x, s, turns[..i], ws, outcomes, store.files)
        invariant reload <==> Success in outcomes
      {
        var outcome, w := TakeTurn(turns[i], x, s, turns[..i], ws, outcomes);
        OneMoreTurn(turns, i);
        outcomes, ws := outcomes + [outcome], ws + [w];
        if outcome.Success? {
          reload := true;
        }
      }
      assert turns[..|turns|] == turns;
      CycleSyncs(x, s, turns, ws, outcomes, store.files);
    }

    /** The next fetch of a cycle. */
    method TakeTurn(t: Turn, ghost x: Setting, ghost s: World, ghost turns: seq<Turn>, ghost ws: seq<WriteResult>,
                    ghost outcomes: seq<Outcome>)
      returns (outcome: Outcome, ghost w: WriteResult)
      requires store.Valid() && store.now.task.Idle? && x.keyOf == store.keyOf && x.codec == codec
      requires CycleDid(x, s, turns, ws, outcomes, store.files)
      modifies store`files, store`now, store`trace
      ensures store.Valid() && store.now.task.Idle? && old(store.trace) <= store.trace
      ensures CycleDid(x, s, turns + [t], ws + [w], outcomes + [outcome], store.files)
    {
      ghost var files := store.files;
      var bytes, entries;
      outcome, bytes, entries, w := FetchOne(t);
      CycleMore(x, s, turns, ws, outcomes, files, t, w, outcome, store.files);
    }
  }

  // -------------------------------------------------------------- coherence

  /** Which body each validator of a URL names, for good. */
  datatype Naming = Naming(byEtag: (string, string) -> string, byDate: (string, string) -> string)

  predicate Named(n: Naming, url: string, etag: string, lastModified: string, body: string) {
    (etag != "" ==> n.byEtag(url, etag) == body) && (lastModified != "" ==> n.byDate(url, lastModified) == body)
  }

  /** Sections 13.1.2 and 15.4.5 of RFC 9110: If-None-Match decides when sent,
      and only a current validator earns a 304. */
  predicate Earns304(o: Origin, asked: CacheMeta) {
    if asked.etag != "" then o.etag == asked.etag
    else asked.lastModified != "" && o.lastModified == asked.lastModified
  }

  /** A reply an honest origin may give: a 304 only when earned, a 200 only with
      what is current.  Failures of any kind are always possible. */
  predicate HonestReply(o: Origin, asked: CacheMeta, r: Reply) {
    && (r.NotModified? ==> Earns304(o, asked))
    && (r.Okay? ==> r == Okay(o.body, o.etag, o.lastModified))
  }

  /** Whatever the sidecar says about the body on disk is so. */
  predicate Coherent(files: Files, h: string, url: string, n: Naming, codec: Codec) {
    MetaName(h) in files ==>
      && BodyName(h) in files
      && match codec.decode(files[MetaName(h)])
         case None => true
         case Some(m) =>
           && Named(n, url, m.etag, m.lastModified, files[BodyName(h)])
           && m.entries == |ParseBody(files[BodyName(h)])| && m.bytes == |files[BodyName(h)]|
  }

  /** The disk agrees with the origin: same body, and the sidecar gives its size
      and counts the entries a load would return. */
  predicate InSync(files: Files, h: string, o: Origin, codec: Codec) {
    && BodyName(h) in files && files[BodyName(h)] == o.body
    && MetaName(h) in files && codec.decode(files[MetaName(h)]).Some?
    && codec.decode(files[MetaName(h)]).value.entries == |LoadEntries(files, h)|
    && codec.decode(files[MetaName(h)]).value.bytes == |o.body|
  }

  // ------------------------------------------------- what a 304 vouches for

  /** The sidecar on disk, if there is one that decodes. */
  function Sidecar(files: Files, h: string, codec: Codec): Option<CacheMeta> {
    if MetaName(h) in files then codec.decode(files[MetaName(h)]) else None
  }

  predicate HasValidator(m: CacheMeta) { m.etag != "" || m.lastModified != "" }

  /** The body that an origin answering 304 to m's validators is serving. */
  function NamedBy(n: Naming, url: string, m: CacheMeta): string {
    if m.etag != "" then n.byEtag(url, m.etag) else n.byDate(url, m.lastModified)
  }

  /** A sidecar with a validator describes the body on disk.  Weaker than
      coherence: of a sidecar that cannot earn a 304 nothing is asked. */
  predicate Reliable(files: Files, h: string, url: string, n: Naming, codec: Codec) {
    var m := Sidecar(files, h, codec);
    m.Some? && HasValidator(m.value) ==>
      && BodyName(h) in files && files[BodyName(h)] == NamedBy(n, url, m.value)
      && m.value.entries == |ParseBody(files[BodyName(h)])| && m.value.bytes == |files[BodyName(h)]|
  }

  lemma CoherentIsReliable(files: Files, h: string, url: string, n: Naming, codec: Codec)
    requires Coherent(files, h, url, n, codec)
    ensures Reliable(files, h, url, n, codec)
  {
  }

  /** Every 304 that an honest origin may send leaves a disk that agrees with it. */
  ghost predicate Trustworthy(files: Files, h: string, url: string, n: Naming, codec: Codec) {
    forall o: Origin, readable: bool ::
      HonestReply(o, ReadMeta(files, h, codec, readable), NotModified) &&
      Named(n, url, o.etag, o.lastModified, o.body) ==>
        InSync(files, h, o, codec)
  }

  /** An origin that serves what the validators of m name, and would answer 304. */
  function OriginOf(n: Naming, url: string, m: CacheMeta): Origin {
    Origin(NamedBy(n, url, m), m.etag, if m.etag != "" then "" else m.lastModified)
  }

  /** For every disk: 304s can be trusted if and only if the sidecar is reliable. */
  lemma TrustworthyIff(files: Files, h: string, url: string, n: Naming, codec: Codec)
    ensures Trustworthy(files, h, url, n, codec) <==> Reliable(files, h, url, n, codec)
  {
    var m := Sidecar(files, h, codec);
    if Trustworthy(files, h, url, n, codec) && m.Some? && HasValidator(m.value) {
      var o := OriginOf(n, url, m.value);
      assert HonestReply(o, ReadMeta(files, h, codec, true), NotModified);
    }
  }

  /** The torn Write of body does no harm: there is no sidecar with a validator, or
      the body is the one already there. */
  predicate TornHarmless(files: Files, h: string, body: string, codec: Codec) {
    var m := Sidecar(files, h, codec);
    m.Some? && HasValidator(m.value) ==> BodyName(h) in files && files[BodyName(h)] == body
  }

  /** After a torn Write over a reliable disk, 304s can still be trusted if and only
      if it did no harm. */
  lemma TornHarmlessIff(files: Files, h: string, url: string, body: string, meta: string, n: Naming, codec: Codec)
    requires IsStem(h) && Reliable(files, h, url, n, codec)
    ensures Trustworthy(Written(files, h, body, meta, Torn), h, url, n, codec) <==> TornHarmless(files, h, body, codec)
  {
    NamesApart(h, h);
    TrustworthyIff(Written(files, h, body, meta, Torn), h, url, n, codec);
  }

  /** A fetch that reports success or not_modified leaves the disk in sync with
      the origin, and every fetch keeps the sidecar reliable unless its Write is
      torn and does harm. */
  lemma FetchReliable(files: Files, h: string, url: string, o: Origin, r: Reply, at: int, readable: bool,
                      n: Naming, codec: Codec, w: WriteResult)
    requires Faithful(codec) && IsStem(h) && Named(n, url, o.etag, o.lastModified, o.body)
    requires Reliable(files, h, url, n, codec)
    requires HonestReply(o, ReadMeta(files, h, codec, readable), r)
    requires r.Okay? && w.Torn? ==> TornHarmless(files, h, r.body, codec)
    ensures var (files', outcome) := Fetched(files, h, url, r, at, codec, w);
      && Reliable(files', h, url, n, codec)
      && (!outcome.Failure? ==> InSync(files', h, o, codec))
  {
    NamesApart(h, h);
  }

  /** A fetch whose Write is not torn also keeps coherence. */
  lemma FetchCoherent(files: Files, h: string, url: string, o: Origin, r: Reply, at: int, readable: bool,
                      n: Naming, codec: Codec, w: WriteResult)
    requires Faithful(codec) && IsStem(h) && Named(n, url, o.etag, o.lastModified, o.body)
    requires Coherent(files, h, url, n, codec)
    requires HonestReply(o, ReadMeta(files, h, codec, readable), r) && !w.Torn?
    ensures var (files', outcome) := Fetched(files, h, url, r, at, codec, w);
      && Coherent(files', h, url, n, codec)
      && (!outcome.Failure? ==> InSync(files', h, o, codec))
  {
    NamesApart(h, h);
  }

  /** A success puts things right whatever was on disk before, torn or not. */
  lemma SuccessRestores(files: Files, h: string, url: string, o: Origin, asked: CacheMeta, r: Reply, at: int,
                        n: Naming, codec: Codec, w: WriteResult)
    requires Faithful(codec) && IsStem(h) && Named(n, url, o.etag, o.lastModified, o.body)
    requires HonestReply(o, asked, r)
    requires Fetched(files, h, url, r, at, codec, w).1.Success?
    ensures var files' := Fetched(files, h, url, r, at, codec, w).0;
      Coherent(files', h, url, n, codec) && InSync(files', h, o, codec)
  {
    NamesApart(h, h);
  }

  /** What each outcome means: success is a 200 of at most 64 MiB, empty or with at
      least one entry, and a complete Write; not_modified is a 304. */
  lemma OutcomesAre(files: Files, h: string, url: string, r: Reply, at: int, codec: Codec, w: WriteResult)
    ensures var o := Fetched(files, h, url, r, at, codec, w).1;
      && (o == Success <==>
          r.Okay? && |r.body| <= 67_108_864 && (r.body == "" || ParseBody(r.body) != []) && w == Complete)
      && (o == Unchanged <==> r == NotModified)
  {
  }

  /** After a success the body and the sidecar are the reply's, and the next request
      is made with the reply's validators. */
  lemma SuccessRecords(files: Files, h: string, url: string, r: Reply, at: int, codec: Codec, w: WriteResult)
    requires Faithful(codec) && IsStem(h) && Fetched(files, h, url, r, at, codec, w).1 == Success
    ensures var files' := Fetched(files, h, url, r, at, codec, w).0;
      var next := ReadMeta(files', h, codec, true);
      && h + ".txt" in files' && files'[h + ".txt"] == r.body && h + ".meta.json" in files'
      && LoadEntries(files', h) == ParseBody(r.body)
      && next.url == url && next.etag == r.etag && next.lastModified == r.lastModified && next.fetchedAt == at
      && next.bytes == |r.body| && next.entries == |ParseBody(r.body)|
  {
    NamesApart(h, h);
  }

  /** Fetching one URL leaves the files of every other stem alone. */
  lemma FetchLeavesOthers(files: Files, h: string, url: string, r: Reply, at: int, codec: Codec, w: WriteResult,
                          h': string)
    requires IsStem(h) && IsStem(h') && h != h'
    ensures var files' := Fetched(files, h, url, r, at, codec, w).0;
      && (BodyName(h') in files' <==> BodyName(h') in files)
      && (MetaName(h') in files' <==> MetaName(h') in files)
      && (BodyName(h') in files ==> files'[BodyName(h')] == files[BodyName(h')])
      && (MetaName(h') in files ==> files'[MetaName(h')] == files[MetaName(h')])
  {
    NamesApart(h, h');
    NamesApart(h', h);
  }

  /** Temporary files do not show: to every reader, and to the fetch of any URL,
      directories that agree but for them are alike. */
  lemma TemporaryFilesDoNotShow(a: Files, b: Files, h: string, url: string, o: Origin, n: Naming, codec: Codec)
    requires Agree(a, b) && IsStem(h)
    ensures forall readable :: ReadMeta(a, h, codec, readable) == ReadMeta(b, h, codec, readable)
    ensures LoadEntries(a, h) == LoadEntries(b, h) && (BodyOk(a, h) <==> BodyOk(b, h))
    ensures Coherent(a, h, url, n, codec) <==> Coherent(b, h, url, n, codec)
    ensures Reliable(a, h, url, n, codec) <==> Reliable(b, h, url, n, codec)
    ensures InSync(a, h, o, codec) <==> InSync(b, h, o, codec)
  {
    NotTmp(h);
  }

  lemma FetchedAgrees(a: Files, b: Files, h: string, url: string, r: Reply, at: int, codec: Codec, w: WriteResult)
    requires Agree(a, b)
    ensures var (a', o) := Fetched(a, h, url, r, at, codec, w);
      var (b', p) := Fetched(b, h, url, r, at, codec, w);
      Agree(a', b') && o == p
  {
  }

  // ------------------------------------------------------------ whole runs

  datatype World = World(files: Files, origins: map<string, Origin>)

  datatype Event =
    | Publish(url: string, origin: Origin)
    | FetchUrl(url: string, r: Reply, at: int, readable: bool, w: WriteResult)

  /** The fixed surroundings: how URLs become stems, what validators name, JSON. */
  datatype Setting = Setting(keyOf: string -> string, naming: Naming, codec: Codec)

  predicate Possible(x: Setting, s: World, e: Event) {
    match e
    case Publish(url, o) => url in s.origins && Named(x.naming, url, o.etag, o.lastModified, o.body)
    case FetchUrl(url, r, _, readable, _) =>
      url in s.origins &&
      HonestReply(s.origins[url], ReadMeta(s.files, x.keyOf(url), x.codec, readable), r)
  }

  function Next(x: Setting, s: World, e: Event): World {
    match e
    case Publish(url, o) => s.(origins := s.origins[url := o])
    case FetchUrl(url, r, at, _, w) => s.(files := Fetched(s.files, x.keyOf(url), url, r, at, x.codec, w).0)
  }

  ghost predicate Sound(x: Setting, urls: set<string>) {
    && Faithful(x.codec)
    && (forall u :: u in urls ==> IsStem(x.keyOf(u)))
    && (forall u, v :: u in urls && v in urls && u != v ==> x.keyOf(u) != x.keyOf(v))
  }

  /** The stored body, if any, is small and empty or a real list. */
  predicate BodyOk(files: Files, h: string) { BodyName(h) in files ==> Acceptable(files[BodyName(h)]) }

  ghost predicate Good(x: Setting, s: World) {
    forall u {:trigger GoodUrl(x, s, u)} :: u in s.origins ==> GoodUrl(x, s, u)
  }

  predicate GoodUrl(x: Setting, s: World, u: string)
    requires u in s.origins
  {
    && Coherent(s.files, x.keyOf(u), u, x.naming, x.codec)
    && Named(x.naming, u, s.origins[u].etag, s.origins[u].lastModified, s.origins[u].body)
    && BodyOk(s.files, x.keyOf(u))
  }

  lemma NextGood(x: Setting, s: World, e: Event)
    requires Sound(x, s.origins.Keys) && Good(x, s) && Possible(x, s, e)
    requires e.FetchUrl? ==> !e.w.Torn?
    ensures Good(x, Next(x, s, e)) && Next(x, s, e).origins.Keys == s.origins.Keys
    ensures e.FetchUrl? && !Fetched(s.files, x.keyOf(e.url), e.url, e.r, e.at, x.codec, e.w).1.Failure? ==>
      InSync(Next(x, s, e).files, x.keyOf(e.url), s.origins[e.url], x.codec)
  {
    var s' := Next(x, s, e);
    forall u | u in s'.origins ensures GoodUrl(x, s', u) {
      assert GoodUrl(x, s, u);
      if e.FetchUrl? {
        assert GoodUrl(x, s, e.url);
        if u == e.url {
          FetchCoherent(s.files, x.keyOf(u), u, s.origins[u], e.r, e.at, e.readable, x.naming, x.codec, e.w);
          NamesApart(x.keyOf(u), x.keyOf(u));
        } else {
          FetchLeavesOthers(s.files, x.keyOf(e.url), e.url, e.r, e.at, x.codec, e.w, x.keyOf(u));
        }
      }
    }
    if e.FetchUrl? {
      assert GoodUrl(x, s, e.url);
      FetchCoherent(s.files, x.keyOf(e.url), e.url, s.origins[e.url], e.r, e.at, e.readable, x.naming, x.codec, e.w);
    }
  }

  function After(x: Setting, s: World, events: seq<Event>): World {
    if events == [] then s else Next(x, After(x, s, events[..|events| - 1]), events[|events| - 1])
  }

  predicate AllPossible(x: Setting, s: World, events: seq<Event>) {
    events == [] ||
    (AllPossible(x, s, events[..|events| - 1]) &&
     Possible(x, After(x, s, events[..|events| - 1]), events[|events| - 1]))
  }

  /** Fetch coherence: over any interleaving of origin changes and fetches of any
      of the URLs, as long as no Write is torn, coherence and the size and
      content rules hold throughout. */
  lemma {:induction false} FetchRuns(x: Setting, s: World, events: seq<Event>)
    requires Sound(x, s.origins.Keys) && Good(x, s) && AllPossible(x, s, events)
    requires forall i :: 0 <= i < |events| && events[i].FetchUrl? ==> !events[i].w.Torn?
    ensures Good(x, After(x, s, events)) && After(x, s, events).origins.Keys == s.origins.Keys
  {
    if events != [] {
      var n := |events| - 1;
      FetchRuns(x, s, events[..n]);
      NextGood(x, After(x, s, events[..n]), events[n]);
    }
  }

  // --------------------------------------------------- bodies over runs

  /** Every fetch of the run is for a URL with a stem, and only u's has u's. */
  predicate StemsApart(x: Setting, events: seq<Event>, u: string) {
    && IsStem(x.keyOf(u))
    && forall i :: 0 <= i < |events| && events[i].FetchUrl? ==>
         IsStem(x.keyOf(events[i].url)) && (events[i].url != u ==> x.keyOf(events[i].url) != x.keyOf(u))
  }

  lemma {:induction false} BodyStaysOk(x: Setting, s: World, events: seq<Event>, h: string)
    requires IsStem(h) && BodyOk(s.files, h)
    requires forall i :: 0 <= i < |events| && events[i].FetchUrl? ==> IsStem(x.keyOf(events[i].url))
    ensures BodyOk(After(x, s, events).files, h)
  {
    if events != [] {
      var n := |events| - 1;
      BodyStaysOk(x, s, events[..n], h);
      if events[n].FetchUrl? { NamesApart(h, x.keyOf(events[n].url)); }
    }
  }

  /** Whatever the replies and however the Writes end, every body a fetch puts on disk
      is at most 64 MiB and is empty or parses to at least one entry. */
  lemma BodiesOkRuns(x: Setting, s: World, events: seq<Event>, h: string)
    requires IsStem(h) && SmallList(s.files, h + ".txt")
    requires forall i :: 0 <= i < |events| && events[i].FetchUrl? ==> IsStem(x.keyOf(events[i].url))
    ensures SmallList(After(x, s, events).files, h + ".txt")
  {
    SmallListIs(s.files, h);
    BodyStaysOk(x, s, events, h);
    SmallListIs(After(x, s, events).files, h);
  }

  /** The file, if it is there, has at most 67108864 bytes, and is empty or lists a name. */
  predicate SmallList(files: Files, name: string) {
    name in files ==> |files[name]| <= 67_108_864 && (files[name] == "" || ParseBody(files[name]) != [])
  }

  lemma SmallListIs(files: Files, h: string)
    ensures SmallList(files, h + ".txt") <==> BodyOk(files, h)
  {
  }

  /** The event puts a body for u on disk. */
  predicate Stores(e: Event, u: string) {
    e.FetchUrl? && e.url == u && e.r.Okay? && Acceptable(e.r.body) && !e.w.Unwritten?
  }

  /** The last body that the run put on disk for u. */
  function StoredBody(events: seq<Event>, u: string): Option<string> {
    if events == [] then None
    else
      var n := |events| - 1;
      if Stores(events[n], u) then Some(events[n].r.body) else StoredBody(events[..n], u)
  }

  lemma LoadedStep(x: Setting, s: World, e: Event, u: string)
    requires StemsApart(x, [e], u)
    ensures LoadEntries(Next(x, s, e).files, x.keyOf(u)) ==
      if Stores(e, u) then ParseBody(e.r.body) else LoadEntries(s.files, x.keyOf(u))
  {
    assert [e][0] == e;
    NamesApart(x.keyOf(u), x.keyOf(u));
    if e.FetchUrl? && e.url != u {
      FetchLeavesOthers(s.files, x.keyOf(e.url), e.url, e.r, e.at, x.codec, e.w, x.keyOf(u));
    }
  }

  /** What a load returns after any run is what the last stored body parses to. */
  lemma {:induction false} LoadedInRuns(x: Setting, s: World, events: seq<Event>, u: string)
    requires StemsApart(x, events, u)
    ensures LoadEntries(After(x, s, events).files, x.keyOf(u)) ==
      match StoredBody(events, u)
      case None => LoadEntries(s.files, x.keyOf(u))
      case Some(body) => ParseBody(body)
  {
    if events != [] {
      var n := |events| - 1;
      LoadedInRuns(x, s, events[..n], u);
      LoadedStep(x, After(x, s, events[..n]), events[n], u);
    }
  }

  lemma {:induction false} StoredAcceptable(events: seq<Event>, u: string)
    ensures StoredBody(events, u).Some? ==> Acceptable(StoredBody(events, u).value)
  {
    if events != [] { StoredAcceptable(events[..|events| - 1], u); }
  }

  lemma EmptyBody()
    ensures ParseBody("") == [] && Acceptable("")
  {
    assert Lines("") == [];
  }

  /** Exactly when a fetch turns a loaded list into nothing: its reply is a 200 with an
      empty body and the Write gets as far as the body. */
  lemma EmptiesIff(files: Files, h: string, url: string, r: Reply, at: int, codec: Codec, w: WriteResult)
    requires IsStem(h) && LoadEntries(files, h) != []
    ensures LoadEntries(Fetched(files, h, url, r, at, codec, w).0, h) == [] <==>
      r.Okay? && r.body == "" && !w.Unwritten?
  {
    NamesApart(h, h);
    EmptyBody();
  }

  /** Over any run: a list that loaded something at the start loads nothing at the end
      if and only if the last body stored for it was empty. */
  lemma EmptiedInRuns(x: Setting, s: World, events: seq<Event>, u: string)
    requires StemsApart(x, events, u) && LoadEntries(s.files, x.keyOf(u)) != []
    ensures LoadEntries(After(x, s, events).files, x.keyOf(u)) == [] <==> StoredBody(events, u) == Some("")
  {
    LoadedInRuns(x, s, events, u);
    StoredAcceptable(events, u);
    EmptyBody();
  }

  /** An instance: a list of one name, then a 200 with nothing in it. */
  lemma EmptyBodyEmpties(h: string, url: string, codec: Codec)
    requires IsStem(h)
    ensures var f1 := Fetched(map[], h, url, Okay("ads", "v1", ""), 0, codec, Complete).0;
      var (f2, outcome) := Fetched(f1, h, url, Okay("", "v2", ""), 1, codec, Complete);
      LoadEntries(f1, h) == ["ads"] && outcome == Success && LoadEntries(f2, h) == []
  {
    NamesApart(h, h);
    ExampleName("ads");
    OneNameBody("ads");
    EmptyBody();
  }

  lemma ExampleName(d: string)
    requires d == "ads"
    ensures ValidFqdn(d)
  {
    assert '.' !in d;
    assert Split(d) == [d];
  }

  /** Every sidecar is reliable, and every origin serves what its validators name. */
  ghost predicate Dependable(x: Setting, s: World) {
    forall u {:trigger DependableUrl(x, s, u)} :: u in s.origins ==> DependableUrl(x, s, u)
  }

  predicate DependableUrl(x: Setting, s: World, u: string)
    requires u in s.origins
  {
    && Reliable(s.files, x.keyOf(u), u, x.naming, x.codec)
    && Named(x.naming, u, s.origins[u].etag, s.origins[u].lastModified, s.origins[u].body)
  }

  lemma GoodIsDependable(x: Setting, s: World)
    requires Good(x, s)
    ensures Dependable(x, s)
  {
    forall u | u in s.origins ensures DependableUrl(x, s, u) {
      assert GoodUrl(x, s, u);
      CoherentIsReliable(s.files, x.keyOf(u), u, x.naming, x.codec);
    }
  }

  /** If the event tears a Write, it does no harm. */
  predicate TearsSafely(x: Setting, s: World, e: Event) {
    e.FetchUrl? && e.r.Okay? && e.w.Torn? ==> TornHarmless(s.files, x.keyOf(e.url), e.r.body, x.codec)
  }

  function OutcomeOf(x: Setting, s: World, e: Event): Outcome
    requires e.FetchUrl?
  {
    Fetched(s.files, x.keyOf(e.url), e.url, e.r, e.at, x.codec, e.w).1
  }

  predicate Synced(x: Setting, s: World, u: string) {
    u in s.origins && InSync(s.files, x.keyOf(u), s.origins[u], x.codec)
  }

  lemma NextDependable(x: Setting, s: World, e: Event)
    requires Sound(x, s.origins.Keys) && Dependable(x, s) && Possible(x, s, e) && TearsSafely(x, s, e)
    ensures Dependable(x, Next(x, s, e)) && Next(x, s, e).origins.Keys == s.origins.Keys
    ensures e.FetchUrl? && OutcomeOf(x, s, e) != Failure ==> Synced(x, Next(x, s, e), e.url)
  {
    var s' := Next(x, s, e);
    if e.FetchUrl? {
      assert DependableUrl(x, s, e.url);
      FetchReliable(s.files, x.keyOf(e.url), e.url, s.origins[e.url], e.r, e.at, e.readable, x.naming, x.codec, e.w);
    }
    forall u | u in s'.origins ensures DependableUrl(x, s', u) {
      assert DependableUrl(x, s, u);
      if e.FetchUrl? && u != e.url {
        FetchLeavesOthers(s.files, x.keyOf(e.url), e.url, e.r, e.at, x.codec, e.w, x.keyOf(u));
      }
    }
  }

  predicate SafeRun(x: Setting, s: World, events: seq<Event>) {
    events == [] ||
    (SafeRun(x, s, events[..|events| - 1]) &&
     TearsSafely(x, After(x, s, events[..|events| - 1]), events[|events| - 1]))
  }

  lemma {:induction false} DependableRuns(x: Setting, s: World, events: seq<Event>)
    requires Sound(x, s.origins.Keys) && Dependable(x, s) && AllPossible(x, s, events) && SafeRun(x, s, events)
    ensures Dependable(x, After(x, s, events)) && After(x, s, events).origins.Keys == s.origins.Keys
  {
    if events != [] {
      var n := |events| - 1;
      DependableRuns(x, s, events[..n]);
      NextDependable(x, After(x, s, events[..n]), events[n]);
    }
  }

  /** Over any interleaving of origin changes and fetches in which torn Writes do no
      harm, a fetch that reports success or not_modified leaves on disk exactly what
      the origin serves at that moment. */
  lemma FetchInSync(x: Setting, s: World, events: seq<Event>, e: Event)
    requires Sound(x, s.origins.Keys) && Dependable(x, s)
    ensures Believable(x, s, events, e)
  {
    if AllPossible(x, s, events) && SafeRun(x, s, events) {
      var before := After(x, s, events);
      DependableRuns(x, s, events);
      if Possible(x, before, e) && TearsSafely(x, before, e) { NextDependable(x, before, e); }
    }
  }

  /** In particular from a coherent store. */
  lemma CoherentInSync(x: Setting, s: World, events: seq<Event>, e: Event)
    requires Sound(x, s.origins.Keys) && Good(x, s)
    ensures Believable(x, s, events, e)
  {
    GoodIsDependable(x, s);
    FetchInSync(x, s, events, e);
  }

  /** A process that dies inside the Write of a fetch leaves what some event of that
      fetch leaves, temporary files aside, so all that is said of runs holds of it. */
  lemma CrashedFetch(x: Setting, s: World, e: Event, disk: State, steps: seq<Step>)
    requires e.FetchUrl? && e.r.Okay? && Acceptable(e.r.body)
    requires Inv(disk) && disk.task.Idle? && disk.files == s.files
    requires Legal(disk, steps) && steps != []
    requires steps[0] == BeginWrite(x.keyOf(e.url), e.r.body, x.codec.encode(MetaFor(e.url, e.r, e.at)))
    requires forall i :: 1 <= i < |steps| ==> !steps[i].BeginWrite? && !steps[i].BeginSweep?
    requires Run(disk, steps).task.Idle?
    ensures exists w :: Agree(Run(disk, steps).files, Next(x, s, e.(w := w)).files)
  {
    WriteRun(disk, x.keyOf(e.url), e.r.body, x.codec.encode(MetaFor(e.url, e.r, e.at)), steps);
    var w :| Agree(Run(disk, steps).files,
                   Written(s.files, x.keyOf(e.url), e.r.body, x.codec.encode(MetaFor(e.url, e.r, e.at)), w));
    assert Agree(Run(disk, steps).files, Next(x, s, e.(w := w)).files);
  }

  /** If the run is possible, no Write in it is torn to its harm, and the fetch that
      follows it reports success or not_modified, then that fetch's URL is in sync. */
  predicate Believable(x: Setting, s: World, events: seq<Event>, e: Event) {
    var before := After(x, s, events);
    && AllPossible(x, s, events) && SafeRun(x, s, events)
    && e.FetchUrl? && Possible(x, before, e) && TearsSafely(x, before, e) && OutcomeOf(x, before, e) != Failure
    ==> Synced(x, Next(x, before, e), e.url)
  }

  ghost predicate AlwaysInSync(x: Setting, s: World) {
    forall events, e :: Believable(x, s, events, e)
  }

  /** Exactly when a torn Write can mislead: from a dependable world, all later
      reports can be believed after it if and only if there was no decodable sidecar
      with a validator, or the new body is the old one. */
  lemma TornWriteExactly(x: Setting, s: World, e: Event)
    requires Sound(x, s.origins.Keys) && Dependable(x, s) && Possible(x, s, e)
    requires e.FetchUrl? && e.w.Torn? && e.r.Okay? && Acceptable(e.r.body)
    ensures AlwaysInSync(x, Next(x, s, e)) <==> TornHarmless(s.files, x.keyOf(e.url), e.r.body, x.codec)
  {
    var s' := Next(x, s, e);
    if TornHarmless(s.files, x.keyOf(e.url), e.r.body, x.codec) {
      NextDependable(x, s, e);
      forall events, l ensures Believable(x, s', events, l) {
        FetchInSync(x, s', events, l);
      }
    } else {
      HarmMisleads(x, s, e);
    }
  }

  /** The origin goes back to the version the old sidecar names, and its honest 304
      is reported as not_modified over the wrong body. */
  lemma HarmMisleads(x: Setting, s: World, e: Event)
    requires Sound(x, s.origins.Keys) && Dependable(x, s) && Possible(x, s, e)
    requires e.FetchUrl? && e.w.Torn? && e.r.Okay? && Acceptable(e.r.body)
    requires !TornHarmless(s.files, x.keyOf(e.url), e.r.body, x.codec)
    ensures !AlwaysInSync(x, Next(x, s, e))
  {
    var s', h := Next(x, s, e), x.keyOf(e.url);
    assert DependableUrl(x, s, e.url);
    NamesApart(h, h);
    var m := Sidecar(s.files, h, x.codec).value;
    assert Sidecar(s'.files, h, x.codec) == Some(m);
    var o := OriginOf(x.naming, e.url, m);
    var events, l := [Publish(e.url, o)], FetchUrl(e.url, NotModified, 0, true, Complete);
    assert events[..0] == [] && events[0] == Publish(e.url, o);
    assert After(x, s', []) == s' && SafeRun(x, s', []) && AllPossible(x, s', []);
    var back := Next(x, s', events[0]);
    assert After(x, s', events) == back;
    assert Possible(x, After(x, s', events), l);
    assert !InSync(s'.files, h, o, x.codec);
    assert !Believable(x, s', events, l);
  }

  // ------------------------------------------------------ cycle and reload

  /** How event i of a run of fetches ends. */
  function OutcomeAt(x: Setting, s: World, events: seq<Event>, i: nat): Outcome
    requires i < |events| && events[i].FetchUrl?
  {
    OutcomeOf(x, After(x, s, events[..i]), events[i])
  }

  /** A fetch that does not fail puts its own URL in sync and leaves the others so. */
  lemma SyncedStep(x: Setting, s: World, e: Event, u: string)
    requires Sound(x, s.origins.Keys) && Dependable(x, s) && Possible(x, s, e) && e.FetchUrl?
    requires OutcomeOf(x, s, e) != Failure && (u == e.url || Synced(x, s, u))
    ensures Synced(x, Next(x, s, e), u) && Dependable(x, Next(x, s, e))
    ensures Next(x, s, e).origins == s.origins
  {
    NextDependable(x, s, e);
    if u != e.url {
      FetchLeavesOthers(s.files, x.keyOf(e.url), e.url, e.r, e.at, x.codec, e.w, x.keyOf(u));
    }
  }

  predicate FetchedWell(x: Setting, s: World, events: seq<Event>, i: nat)
    requires i < |events|
  {
    events[i].FetchUrl? && OutcomeAt(x, s, events, i) != Failure
  }

  lemma WellInPrefix(x: Setting, s: World, events: seq<Event>, n: nat, i: nat)
    requires i < n <= |events| && FetchedWell(x, s, events, i)
    ensures FetchedWell(x, s, events[..n], i)
  {
    assert events[..n][..i] == events[..i];
  }

  /** A cycle of fetches none of which fails, over an unchanged origin, leaves every
      fetched URL in sync at its end. */
  lemma {:induction false} CycleInSync(x: Setting, s: World, events: seq<Event>)
    requires Sound(x, s.origins.Keys) && Dependable(x, s) && AllPossible(x, s, events)
    requires forall i: nat :: i < |events| ==> FetchedWell(x, s, events, i)
    ensures Dependable(x, After(x, s, events)) && After(x, s, events).origins == s.origins
    ensures forall k :: 0 <= k < |events| ==> Synced(x, After(x, s, events), events[k].url)
  {
    if events != [] {
      var n := |events| - 1;
      var init, e := events[..n], events[n];
      forall i: nat | i < n ensures FetchedWell(x, s, init, i) {
        WellInPrefix(x, s, events, n, i);
      }
      CycleInSync(x, s, init);
      assert FetchedWell(x, s, events, n);
      forall k | 0 <= k <= n ensures Synced(x, After(x, s, events), events[k].url) {
        assert k < n ==> init[k] == events[k];
        SyncedStep(x, After(x, s, init), e, events[k].url);
      }
      SyncedStep(x, After(x, s, init), e, e.url);
    }
  }

  // ---------------------------------------------- the cycle of the object

  /** The fetch a turn makes over the given files. */
  function TurnEvent(x: Setting, files: Files, t: Turn, w: WriteResult): Event {
    FetchUrl(t.url, t.Meets(ReadMeta(files, x.keyOf(t.url), x.codec, t.readable)), t.at, t.readable, w)
  }

  /** The run of fetches that the turns make, one after the other. */
  function CycleEvents(x: Setting, s: World, turns: seq<Turn>, ws: seq<WriteResult>): (events: seq<Event>)
    requires |ws| == |turns|
    ensures |events| == |turns| && forall i :: 0 <= i < |turns| ==> events[i].FetchUrl? && events[i].url == turns[i].url
  {
    if turns == [] then []
    else
      var n := |turns| - 1;
      var events := CycleEvents(x, s, turns[..n], ws[..n]);
      events + [TurnEvent(x, After(x, s, events).files, turns[n], ws[n])]
  }

  /** Event i is the fetch of turn i, asked with the sidecar that the fetches before it
      have left, unless the context is cancelled. */
  lemma {:induction false} CycleEventsAre(x: Setting, s: World, turns: seq<Turn>, ws: seq<WriteResult>, i: nat)
    requires |ws| == |turns| && i < |turns|
    ensures var events, t := CycleEvents(x, s, turns, ws), turns[i];
      var prev := ReadMeta(After(x, s, events[..i]).files, x.keyOf(t.url), x.codec, t.readable);
      events[i] == FetchUrl(t.url, if t.cancelled then TransportError else t.ask(prev), t.at, t.readable, ws[i])
  {
    var n := |turns| - 1;
    var events, init := CycleEvents(x, s, turns, ws), CycleEvents(x, s, turns[..n], ws[..n]);
    assert events[..n] == init;
    if i < n {
      CycleEventsAre(x, s, turns[..n], ws[..n], i);
      assert events[..i] == init[..i] && events[i] == init[i];
    }
  }

  /** A cycle over the turns, its Writes ending in ws, had these outcomes and left
      these files, temporary ones aside. */
  ghost predicate CycleDid(x: Setting, s: World, turns: seq<Turn>, ws: seq<WriteResult>,
                           outcomes: seq<Outcome>, files: Files)
  {
    && |ws| == |outcomes| == |turns|
    && var events := CycleEvents(x, s, turns, ws);
       && Agree(files, After(x, s, events).files)
       && forall i: nat :: i < |turns| ==> outcomes[i] == OutcomeAt(x, s, events, i)
  }

  lemma OneMoreTurn(turns: seq<Turn>, i: nat)
    requires i < |turns|
    ensures turns[..i + 1] == turns[..i] + [turns[i]]
  {
  }

  lemma CycleSnoc(x: Setting, s: World, turns: seq<Turn>, ws: seq<WriteResult>, t: Turn, w: WriteResult)
    requires |ws| == |turns|
    ensures var events := CycleEvents(x, s, turns, ws);
      CycleEvents(x, s, turns + [t], ws + [w]) == events + [TurnEvent(x, After(x, s, events).files, t, w)]
  {
    assert (turns + [t])[..|turns|] == turns && (ws + [w])[..|ws|] == ws;
  }

  lemma OutcomesSnoc(x: Setting, s: World, events: seq<Event>, e: Event, outcomes: seq<Outcome>)
    requires |outcomes| == |events| && e.FetchUrl? && forall i :: 0 <= i < |events| ==> events[i].FetchUrl?
    requires forall i: nat :: i < |events| ==> outcomes[i] == OutcomeAt(x, s, events, i)
    ensures After(x, s, events + [e]) == Next(x, After(x, s, events), e)
    ensures forall i: nat :: i <= |events| ==>
      (outcomes + [OutcomeOf(x, After(x, s, events), e)])[i] == OutcomeAt(x, s, events + [e], i)
  {
    var more := events + [e];
    assert more[..|events|] == events;
    forall i: nat | i < |events| ensures OutcomeAt(x, s, more, i) == OutcomeAt(x, s, events, i) {
      assert more[..i] == events[..i];
    }
  }

  /** Fetching over files that agree with the run's continues the run. */
  lemma TurnAgrees(x: Setting, s: World, files: Files, t: Turn, w: WriteResult, files': Files)
    requires Agree(files, s.files) && IsStem(x.keyOf(t.url))
    requires Same(files', Fetched(files, x.keyOf(t.url), t.url, TurnEvent(x, files, t, w).r, t.at, x.codec, w).0,
                  x.keyOf(t.url))
    ensures TurnEvent(x, files, t, w) == TurnEvent(x, s.files, t, w)
    ensures Agree(files', Next(x, s, TurnEvent(x, s.files, t, w)).files)
    ensures OutcomeOf(x, s.(files := files), TurnEvent(x, files, t, w)) == OutcomeOf(x, s, TurnEvent(x, s.files, t, w))
  {
    var h := x.keyOf(t.url);
    NotTmp(h);
    var e := TurnEvent(x, files, t, w);
    FetchedAgrees(files, s.files, h, t.url, e.r, t.at, x.codec, w);
    SameAgrees(files', Fetched(files, h, t.url, e.r, t.at, x.codec, w).0, h);
  }

  lemma CycleMore(x: Setting, s: World, turns: seq<Turn>, ws: seq<WriteResult>, outcomes: seq<Outcome>, files: Files,
                  t: Turn, w: WriteResult, o: Outcome, files': Files)
    requires CycleDid(x, s, turns, ws, outcomes, files) && IsStem(x.keyOf(t.url))
    requires var h := x.keyOf(t.url);
      var (left, end) := Fetched(files, h, t.url, TurnEvent(x, files, t, w).r, t.at, x.codec, w);
      Same(files', left, h) && o == end
    ensures CycleDid(x, s, turns + [t], ws + [w], outcomes + [o], files')
  {
    var events := CycleEvents(x, s, turns, ws);
    var before := After(x, s, events);
    CycleSnoc(x, s, turns, ws, t, w);
    TurnAgrees(x, before, files, t, w, files');
    OutcomesSnoc(x, s, events, TurnEvent(x, before.files, t, w), outcomes);
  }

  /** The turn's target has an origin, whose replies are honest. */
  ghost predicate HonestTurn(origins: map<string, Origin>, t: Turn) {
    t.url in origins && forall asked :: HonestReply(origins[t.url], asked, t.ask(asked))
  }

  ghost predicate HonestTurns(origins: map<string, Origin>, turns: seq<Turn>) {
    forall i :: 0 <= i < |turns| ==> HonestTurn(origins, turns[i])
  }

  lemma TurnPossible(x: Setting, s: World, t: Turn, w: WriteResult)
    requires HonestTurn(s.origins, t)
    ensures Possible(x, s, TurnEvent(x, s.files, t, w))
  {
  }

  lemma {:induction false} CyclePossible(x: Setting, s: World, turns: seq<Turn>, ws: seq<WriteResult>)
    requires |ws| == |turns| && HonestTurns(s.origins, turns)
    ensures var events := CycleEvents(x, s, turns, ws);
      AllPossible(x, s, events) && After(x, s, events).origins == s.origins
  {
    if turns != [] {
      var n := |turns| - 1;
      CyclePossible(x, s, turns[..n], ws[..n]);
      var init := CycleEvents(x, s, turns[..n], ws[..n]);
      TurnPossible(x, After(x, s, init), turns[n], ws[n]);
      var events := CycleEvents(x, s, turns, ws);
      assert events[..n] == init && events[n] == TurnEvent(x, After(x, s, init).files, turns[n], ws[n]);
    }
  }

  /** A cycle in which no fetch fails leaves every target in sync on the real disk. */
  lemma CycleSyncs(x: Setting, s: World, turns: seq<Turn>, ws: seq<WriteResult>, outcomes: seq<Outcome>, files: Files)
    requires CycleDid(x, s, turns, ws, outcomes, files)
    ensures Sound(x, s.origins.Keys) && Dependable(x, s) && HonestTurns(s.origins, turns) && Failure !in outcomes ==>
      forall i :: 0 <= i < |turns| ==> Synced(x, World(files, s.origins), turns[i].url)
  {
    var events := CycleEvents(x, s, turns, ws);
    if Sound(x, s.origins.Keys) && Dependable(x, s) && HonestTurns(s.origins, turns) && Failure !in outcomes {
      CyclePossible(x, s, turns, ws);
      forall i: nat | i < |events| ensures FetchedWell(x, s, events, i) {
        assert outcomes[i] in outcomes;
      }
      CycleInSync(x, s, events);
      forall i | 0 <= i < |turns| ensures Synced(x, World(files, s.origins), turns[i].url) {
        var u := turns[i].url;
        assert Synced(x, After(x, s, events), events[i].url);
        TemporaryFilesDoNotShow(files, After(x, s, events).files, x.keyOf(u), u, s.origins[u], x.naming, x.codec);
      }
    }
  }

  // ----------------------------------------------------------------- reload

  /** What the HTTP sources of a loader return, source by source. */
  function Loads(x: Setting, s: World, urls: seq<string>): seq<seq<string>> {
    seq(|urls|, i requires 0 <= i < |urls| => LoadEntries(s.files, x.keyOf(urls[i])))
  }

  /** The list the origin of u currently serves blocks the name. */
  predicate ListBlocks(s: World, u: string, qname: string) {
    u in s.origins && Blocked(EntrySet(ParseBody(s.origins[u].body)), qname)
  }

  /** A reload over synced URLs blocks exactly what the origins' current lists block. */
  lemma ReloadBlocks(x: Setting, s: World, urls: seq<string>, qname: string)
    requires forall i :: 0 <= i < |urls| ==> Synced(x, s, urls[i])
    ensures Blocked(EntrySet(Flatten(Loads(x, s, urls))), qname) <==>
      exists i :: 0 <= i < |urls| && ListBlocks(s, urls[i], qname)
  {
    SourcesAreDisjunction(Loads(x, s, urls), qname);
    forall i | 0 <= i < |urls|
      ensures Blocked(EntrySet(Loads(x, s, urls)[i]), qname) <==> ListBlocks(s, urls[i], qname)
    {
      assert Synced(x, s, urls[i]);
    }
  }

  /** An instance of the harm: a torn write leaves the old sidecar beside
      the new body; when the origin goes back to the old version, an honest 304
      reports not_modified over the wrong body. */
  lemma TornWriteMisleads(h: string, url: string, b1: string, b2: string, n: Naming, codec: Codec)
    requires Faithful(codec) && IsStem(h) && b1 != b2 && Acceptable(b1) && Acceptable(b2)
    requires n.byEtag(url, "v1") == b1 && n.byEtag(url, "v2") == b2
    ensures var o1, o2 := Origin(b1, "v1", ""), Origin(b2, "v2", "");
      var r1, r2 := Okay(b1, "v1", ""), Okay(b2, "v2", "");
      var f1 := Fetched(map[], h, url, r1, 0, codec, Complete).0;
      var f2 := Fetched(f1, h, url, r2, 1, codec, Torn).0;
      var asked := ReadMeta(f2, h, codec, true);
      && InSync(f1, h, o1, codec)
      && HonestReply(o1, asked, NotModified)
      && Fetched(f2, h, url, NotModified, 2, codec, Complete).1 == Unchanged
      && !InSync(Fetched(f2, h, url, NotModified, 2, codec, Complete).0, h, o1, codec)
  {
    NamesApart(h, h);
  }
}
