// The ingest worker: notes of a repository become episodes of a knowledge
// graph, in batches, with retries, deleting a note's old episodes before adding
// the new ones.

module Ingest {
  import opened Common
  import Chunks

  type Path = string
  type Uuid = nat

  /** A note as rendered: its text, and its explicit date if it has one. */
  datatype Note = Note(body: string, date: Option<int>)

  type Notes = map<Path, Note>

  datatype Ingested = Ingested(hash: string, episodes: seq<Uuid>)
  datatype Failure = Failure(hash: string, count: nat)

  /** The state file. */
  datatype State = State(notes: map<Path, Ingested>, failures: map<Path, Failure>, commit: string, backlog: bool)

  /** `sha` is the digest of a text. */
  datatype Config = Config(version: string, batch: nat, maxAttempts: nat, limit: nat, sha: string -> string)

  predicate OneLine(version: string) {
    '\n' !in version
  }

  ghost predicate ValidConfig(cfg: Config) {
    cfg.batch > 0 && cfg.maxAttempts > 0 && cfg.limit > 0 && OneLine(cfg.version)
  }

  // ------------------------------------------------------------ pending work

  /** What is hashed of a note: the render version, a line break, and the text. */
  function Hashed(version: string, body: string): string {
    version + "\n" + body
  }

  /** The first line break ends the version, so the hashed text determines version and body. */
  lemma HashedDetermines(v: string, a: string, w: string, b: string)
    requires OneLine(v) && OneLine(w) && Hashed(v, a) == Hashed(w, b)
    ensures v == w && a == b
  {
    FirstSeparator('\n', v, a, w, b);
  }

  function HashOf(cfg: Config, n: Note): string {
    cfg.sha(Hashed(cfg.version, n.body))
  }

  predicate Current(cfg: Config, st: State, p: Path, n: Note) {
    p in st.notes && st.notes[p].hash == HashOf(cfg, n)
  }

  function Attempts(cfg: Config, st: State, p: Path, n: Note): nat {
    if p in st.failures && st.failures[p].hash == HashOf(cfg, n) then st.failures[p].count else 0
  }

  predicate Exhausted(cfg: Config, st: State, p: Path, n: Note) {
    p in st.failures && st.failures[p].hash == HashOf(cfg, n) && st.failures[p].count >= cfg.maxAttempts
  }

  predicate Pending(cfg: Config, st: State, notes: Notes, p: Path) {
    p in notes && notes[p].body != "" && !Current(cfg, st, p, notes[p]) && !Exhausted(cfg, st, p, notes[p])
  }

  /**
   * The note has a text, no episodes are recorded under its hash, and fewer than
   * `maxAttempts` failures are.
   */
  ghost predicate ToDo(cfg: Config, st: State, notes: Notes, p: Path) {
    && p in notes && notes[p].body != ""
    && var hash := cfg.sha(cfg.version + "\n" + notes[p].body);
    && (p in st.notes ==> st.notes[p].hash != hash)
    && (p in st.failures && st.failures[p].hash == hash ==> st.failures[p].count < cfg.maxAttempts)
  }

  lemma PendingIff(cfg: Config, st: State, notes: Notes, p: Path)
    ensures Pending(cfg, st, notes, p) <==> ToDo(cfg, st, notes, p)
  {
  }

  /** Attempts left for a pending note. */
  function Remaining(cfg: Config, st: State, notes: Notes, p: Path): nat {
    if Pending(cfg, st, notes, p) && Attempts(cfg, st, p, notes[p]) < cfg.maxAttempts then
      cfg.maxAttempts - Attempts(cfg, st, p, notes[p])
    else 0
  }

  function WorkOn(cfg: Config, st: State, notes: Notes, paths: seq<Path>): nat {
    if paths == [] then 0 else Remaining(cfg, st, notes, paths[0]) + WorkOn(cfg, st, notes, paths[1..])
  }

  /** Attempts left over all pending notes. */
  function Work(cfg: Config, st: State, notes: Notes): nat {
    WorkOn(cfg, st, notes, SortedKeys(notes.Keys))
  }

  lemma {:induction false} LessWork(cfg: Config, s: State, t: State, notes: Notes, paths: seq<Path>)
    requires forall p :: p in paths ==> Remaining(cfg, t, notes, p) <= Remaining(cfg, s, notes, p)
    ensures WorkOn(cfg, t, notes, paths) <= WorkOn(cfg, s, notes, paths)
    ensures (exists p :: p in paths && Remaining(cfg, t, notes, p) < Remaining(cfg, s, notes, p)) ==>
              WorkOn(cfg, t, notes, paths) < WorkOn(cfg, s, notes, paths)
  {
    if paths != [] {
      LessWork(cfg, s, t, notes, paths[1..]);
      assert paths == [paths[0]] + paths[1..];
    }
  }

  /** What the state says about one path. */
  ghost predicate SameAbout(s: State, t: State, p: Path) {
    && (p in s.notes <==> p in t.notes) && (p in s.notes ==> s.notes[p] == t.notes[p])
    && (p in s.failures <==> p in t.failures) && (p in s.failures ==> s.failures[p] == t.failures[p])
  }

  // ------------------------------------------------------------ newest first

  predicate Newer(notes: Notes, p: Path, q: Path)
    requires p in notes && q in notes
  {
    match (notes[p].date, notes[q].date)
    case (Some(d), Some(e)) => d > e || (d == e && !Leq(p, q))
    case (Some(_), None) => true
    case (None, Some(_)) => false
    case (None, None) => !Leq(p, q)
  }

  function InsertNewest(notes: Notes, p: Path, s: seq<Path>): seq<Path>
    requires p in notes && forall q :: q in s ==> q in notes
  {
    if s == [] || Newer(notes, p, s[0]) then [p] + s else [s[0]] + InsertNewest(notes, p, s[1..])
  }

  lemma {:induction false} InsertNewestMember(notes: Notes, p: Path, s: seq<Path>, q: Path)
    requires p in notes && forall q :: q in s ==> q in notes
    ensures q in InsertNewest(notes, p, s) <==> q == p || q in s
  {
    if s != [] && !Newer(notes, p, s[0]) {
      InsertNewestMember(notes, p, s[1..], q);
      assert s == [s[0]] + s[1..];
    }
  }

  lemma {:induction false} InsertNewestDistinct(notes: Notes, p: Path, s: seq<Path>)
    requires p in notes && forall q :: q in s ==> q in notes
    requires Distinct(s) && p !in s
    ensures Distinct(InsertNewest(notes, p, s))
  {
    if s != [] && !Newer(notes, p, s[0]) {
      InsertNewestDistinct(notes, p, s[1..]);
      InsertNewestMember(notes, p, s[1..], s[0]);
    }
  }

  ghost predicate NewestFirst(notes: Notes, s: seq<Path>) {
    && (forall i :: 0 <= i < |s| ==> s[i] in notes)
    && forall i, j :: 0 <= i < j < |s| ==> Newer(notes, s[i], s[j])
  }

  /** Of two notes the later one comes first, a dated one before an undated one, then the greater path. */
  lemma NewerIff(notes: Notes, p: Path, q: Path)
    requires p in notes && q in notes && p != q
    ensures Newer(notes, p, q) <==>
      if notes[p].date == notes[q].date then Leq(q, p)
      else notes[q].date == None || (notes[p].date != None && notes[p].date.value > notes[q].date.value)
  {
    LeqTotal(p, q);
    if Leq(p, q) && Leq(q, p) { LeqAntisymmetric(p, q); }
  }

  lemma NewerIsOrder(notes: Notes, p: Path, q: Path, r: Path)
    requires p in notes && q in notes && r in notes
    ensures Newer(notes, p, q) && Newer(notes, q, r) ==> Newer(notes, p, r)
    ensures p != q ==> Newer(notes, p, q) || Newer(notes, q, p)
  {
    LeqTotal(p, q);
    LeqTotal(q, r);
    if Leq(p, q) && Leq(q, p) { LeqAntisymmetric(p, q); }
    if !Leq(p, q) && !Leq(q, r) && Leq(p, r) { LeqTransitive(q, p, r); }
  }

  lemma {:induction false} InsertKeepsOrder(notes: Notes, p: Path, s: seq<Path>)
    requires p in notes && NewestFirst(notes, s) && p !in s
    ensures NewestFirst(notes, InsertNewest(notes, p, s))
  {
    if s == [] {
    } else if Newer(notes, p, s[0]) {
      forall j | 0 <= j < |s| ensures Newer(notes, p, s[j]) {
        if j > 0 { NewerIsOrder(notes, p, s[0], s[j]); }
      }
    } else {
      var rest := InsertNewest(notes, p, s[1..]);
      InsertKeepsOrder(notes, p, s[1..]);
      NewerIsOrder(notes, p, s[0], s[0]);
      forall j | 0 <= j < |rest| ensures Newer(notes, s[0], rest[j]) {
        InsertNewestMember(notes, p, s[1..], rest[j]);
        if rest[j] != p { var i :| 1 <= i < |s| && s[i] == rest[j]; }
      }
    }
  }

  /** The loop that collects what is pending, and the sort. */
  method PendingList(cfg: Config, st: State, notes: Notes) returns (pending: seq<Path>)
    ensures Distinct(pending) && forall p :: p in pending <==> Pending(cfg, st, notes, p)
    ensures forall p :: p in pending <==> ToDo(cfg, st, notes, p)
    ensures NewestFirst(notes, pending)
  {
    var paths := SortedKeys(notes.Keys);
    pending := [];
    for i := 0 to |paths|
      invariant Distinct(pending) && forall p :: p in pending <==> p in paths[..i] && Pending(cfg, st, notes, p)
      invariant NewestFirst(notes, pending)
    {
      var p := paths[i];
      assert paths[..i + 1] == paths[..i] + [p];
      assert p !in paths[..i];
      if Pending(cfg, st, notes, p) {
        ghost var before := pending;
        forall q ensures q in InsertNewest(notes, p, before) <==> q == p || q in before {
          InsertNewestMember(notes, p, before, q);
        }
        InsertNewestDistinct(notes, p, before);
        InsertKeepsOrder(notes, p, before);
        pending := InsertNewest(notes, p, pending);
      }
    }
    assert paths[..|paths|] == paths;
    forall p ensures Pending(cfg, st, notes, p) <==> ToDo(cfg, st, notes, p) { PendingIff(cfg, st, notes, p); }
  }

  // ------------------------------------------------------------ episodes

  /**
   * Every recorded episode is live and belongs to one note; every live episode
   * is recorded or leaked, a leaked one being one whose removal failed.
   */
  ghost predicate Accounted(notes: map<Path, Ingested>, live: set<Uuid>, leaked: set<Uuid>, next: Uuid) {
    && (forall p :: p in notes ==> Distinct(notes[p].episodes))
    && (forall p, u :: p in notes && u in notes[p].episodes ==> u in live && u !in leaked)
    && (forall p, q, u :: p in notes && q in notes && u in notes[p].episodes && u in notes[q].episodes ==> p == q)
    && (forall u :: u in live ==> u in leaked || exists p :: p in notes && u in notes[p].episodes)
    && leaked <= live
    && (forall u :: u in live ==> u < next)
  }

  /** With no failed removal, the live episodes are exactly the recorded ones. */
  lemma LiveIsRecorded(notes: map<Path, Ingested>, live: set<Uuid>, next: Uuid)
    requires Accounted(notes, live, {}, next)
    ensures live == set p, u | p in notes && u in notes[p].episodes :: u
  {
    forall u | u in live ensures exists p :: p in notes && u in notes[p].episodes {}
  }

  /** A note has episodes or a failure count, never both. */
  ghost predicate Exclusive(st: State) {
    st.notes.Keys !! st.failures.Keys
  }

  lemma DropNote(notes: map<Path, Ingested>, live: set<Uuid>, leaked: set<Uuid>, next: Uuid, p: Path,
                 live': set<Uuid>, leaked': set<Uuid>)
    requires Accounted(notes, live, leaked, next) && p in notes
    requires leaked <= leaked' <= leaked + SetOf(notes[p].episodes)
    requires live' == live - (SetOf(notes[p].episodes) - leaked')
    ensures Accounted(notes - {p}, live', leaked', next)
  {
    forall u | u in live' ensures u in leaked' || exists q :: q in notes - {p} && u in (notes - {p})[q].episodes {
      if u !in leaked' {
        var q :| q in notes && u in notes[q].episodes;
        assert q in notes - {p};
      }
    }
    forall q, u | q in notes - {p} && u in (notes - {p})[q].episodes ensures u in live' && u !in leaked' {
      assert u !in notes[p].episodes;
    }
  }

  lemma RecordNote(notes: map<Path, Ingested>, live: set<Uuid>, leaked: set<Uuid>, next: Uuid, p: Path, n: Ingested, next': Uuid)
    requires Accounted(notes, live, leaked, next) && p !in notes
    requires Distinct(n.episodes) && forall u :: u in n.episodes ==> next <= u < next'
    requires next <= next'
    ensures Accounted(notes[p := n], live + SetOf(n.episodes), leaked, next')
  {
    var more := notes[p := n];
    forall u | u in live + SetOf(n.episodes) ensures u in leaked || exists q :: q in more && u in more[q].episodes {
      if u in n.episodes {
        assert u in more[p].episodes;
      } else if u !in leaked {
        var q :| q in notes && u in notes[q].episodes;
        assert q in more && more[q] == notes[q];
      }
    }
    forall q, u | q in notes && u in notes[q].episodes ensures u in live && u < next && u !in n.episodes {
    }
    forall q, r, u | q in more && r in more && u in more[q].episodes && u in more[r].episodes ensures q == r {
      if q != p && r != p { assert u in notes[q].episodes && u in notes[r].episodes; }
    }
  }

  lemma FailedAdd(notes: map<Path, Ingested>, live: set<Uuid>, leaked: set<Uuid>, next: Uuid,
                  live': set<Uuid>, leaked': set<Uuid>, next': Uuid)
    requires Accounted(notes, live, leaked, next) && leaked <= leaked' && next <= next'
    requires live' == live + (leaked' - leaked) && forall u :: u in leaked' - leaked ==> next <= u < next'
    ensures Accounted(notes, live', leaked', next')
  {
    forall p, u | p in notes && u in notes[p].episodes ensures u in live' && u !in leaked' {
      assert u in live && u < next;
    }
  }

  /** The episodes say these texts, in order. */
  ghost predicate Says(text: map<Uuid, string>, uuids: seq<Uuid>, parts: seq<string>) {
    |uuids| == |parts| && forall i :: 0 <= i < |uuids| ==> uuids[i] in text && text[uuids[i]] == parts[i]
  }

  /** The note was recorded for this body under this render version: its hash, and one episode per chunk. */
  ghost predicate RecordedFor(cfg: Config, text: map<Uuid, string>, n: Ingested, version: string, body: string)
    requires cfg.limit > 0
  {
    && body != "" && OneLine(version) && n.hash == cfg.sha(Hashed(version, body))
    && Says(text, n.episodes, Chunks.Chunked(body, cfg.limit))
  }

  /** Every recorded note was recorded for some body, under some version. */
  ghost predicate AllRecorded(cfg: Config, text: map<Uuid, string>, notes: map<Path, Ingested>)
    requires cfg.limit > 0
  {
    forall p :: p in notes ==> exists version, body :: RecordedFor(cfg, text, notes[p], version, body)
  }

  /** What existing episodes say does not change. */
  ghost predicate TextKept(before: map<Uuid, string>, after: map<Uuid, string>, next: Uuid) {
    forall u :: u < next && u in before ==> u in after && after[u] == before[u]
  }

  lemma StillRecorded(cfg: Config, before: map<Uuid, string>, after: map<Uuid, string>, notes: map<Path, Ingested>,
                      live: set<Uuid>, leaked: set<Uuid>, next: Uuid)
    requires cfg.limit > 0 && AllRecorded(cfg, before, notes) && Accounted(notes, live, leaked, next)
    requires TextKept(before, after, next)
    ensures AllRecorded(cfg, after, notes)
  {
    forall p | p in notes ensures exists version, body :: RecordedFor(cfg, after, notes[p], version, body) {
      var version, body :| RecordedFor(cfg, before, notes[p], version, body);
      forall i | 0 <= i < |notes[p].episodes| ensures notes[p].episodes[i] < next {
        assert notes[p].episodes[i] in notes[p].episodes;
        assert notes[p].episodes[i] in live;
      }
      assert RecordedFor(cfg, after, notes[p], version, body);
    }
  }

  /** Two texts with one digest. */
  ghost predicate Collide(sha: string -> string, s: string, t: string) {
    s != t && sha(s) == sha(t)
  }

  /**
   * The episodes of a current note hold a text: each within the limit, and
   * together its characters in order but for white space. It is the text of the
   * note, or else its hashed text and that of the note are a collision.
   */
  lemma CurrentNoteIsWhole(cfg: Config, text: map<Uuid, string>, st: State, p: Path, n: Note)
    returns (version: string, body: string, parts: seq<string>)
    requires ValidConfig(cfg) && AllRecorded(cfg, text, st.notes) && Current(cfg, st, p, n)
    ensures RecordedFor(cfg, text, st.notes[p], version, body)
    ensures Says(text, st.notes[p].episodes, parts)
    ensures Chunks.Sized(cfg.limit, parts) && Chunks.Ink(Flatten(parts)) == Chunks.Ink(body)
    ensures (version == cfg.version && body == n.body)
         || Collide(cfg.sha, Hashed(version, body), Hashed(cfg.version, n.body))
  {
    version, body :| RecordedFor(cfg, text, st.notes[p], version, body);
    parts := Chunks.Chunked(body, cfg.limit);
    Chunks.ChunksFit(body, cfg.limit);
    if Hashed(version, body) == Hashed(cfg.version, n.body) {
      HashedDetermines(version, body, cfg.version, n.body);
    }
  }

  /** What the worker keeps: episodes accounted for, notes recorded or failed but not both, texts in place. */
  ghost predicate Good(cfg: Config, st: State, live: set<Uuid>, leaked: set<Uuid>, text: map<Uuid, string>, next: Uuid) {
    ValidConfig(cfg) && Accounted(st.notes, live, leaked, next) && Exclusive(st) && AllRecorded(cfg, text, st.notes)
  }

  /** What the worker keeps does not depend on the render version. */
  lemma GoodUnderAnyVersion(cfg: Config, version: string, st: State, live: set<Uuid>, leaked: set<Uuid>,
                            text: map<Uuid, string>, next: Uuid)
    requires Good(cfg, st, live, leaked, text, next) && OneLine(version)
    ensures Good(cfg.(version := version), st, live, leaked, text, next)
  {
    var cfg' := cfg.(version := version);
    forall p | p in st.notes ensures exists v, body :: RecordedFor(cfg', text, st.notes[p], v, body) {
      var v, body :| RecordedFor(cfg, text, st.notes[p], v, body);
      assert RecordedFor(cfg', text, st.notes[p], v, body);
    }
  }

  /** After the episodes of a note were removed. */
  lemma DropGood(cfg: Config, st: State, live: set<Uuid>, leaked: set<Uuid>, text: map<Uuid, string>, next: Uuid, p: Path,
                 live': set<Uuid>, leaked': set<Uuid>)
    requires Good(cfg, st, live, leaked, text, next) && p in st.notes
    requires leaked <= leaked' <= leaked + SetOf(st.notes[p].episodes)
    requires live' == live - (SetOf(st.notes[p].episodes) - leaked')
    ensures Good(cfg, st.(notes := st.notes - {p}), live', leaked', text, next)
  {
    DropNote(st.notes, live, leaked, next, p, live', leaked');
    assert forall q :: q in st.notes - {p} ==> (st.notes - {p})[q] == st.notes[q];
  }

  lemma ForgetFailures(cfg: Config, st: State, live: set<Uuid>, leaked: set<Uuid>, text: map<Uuid, string>, next: Uuid,
                       notes: Notes)
    requires Good(cfg, st, live, leaked, text, next)
    ensures Good(cfg, st.(failures := map p | p in st.failures && p in notes :: st.failures[p]), live, leaked, text, next)
  {
  }

  lemma AllGone(s: State, t: State, notes: Notes, gone: seq<Path>)
    requires forall p :: p in gone <==> p in s.notes.Keys - notes.Keys
    requires t.notes == s.notes - SetOf(gone)
    requires t.failures == map p | p in s.failures && p in notes :: s.failures[p]
    ensures Tidied(s, t, notes)
  {
  }

  /** After an addition that failed. */
  lemma FailGood(cfg: Config, st: State, live: set<Uuid>, leaked: set<Uuid>, text: map<Uuid, string>, next: Uuid, p: Path,
                 f: Failure, live': set<Uuid>, leaked': set<Uuid>, text': map<Uuid, string>, next': Uuid)
    requires Good(cfg, st, live, leaked, text, next) && p !in st.notes
    requires leaked <= leaked' && next <= next' && TextKept(text, text', next)
    requires live' == live + (leaked' - leaked) && forall u :: u in leaked' - leaked ==> next <= u < next'
    ensures Good(cfg, st.(failures := st.failures[p := f]), live', leaked', text', next')
  {
    FailedAdd(st.notes, live, leaked, next, live', leaked', next');
    StillRecorded(cfg, text, text', st.notes, live, leaked, next);
  }

  /** After an addition that worked. */
  lemma RecordGood(cfg: Config, st: State, live: set<Uuid>, leaked: set<Uuid>, text: map<Uuid, string>, next: Uuid, p: Path,
                   n: Ingested, body: string, text': map<Uuid, string>, next': Uuid)
    requires Good(cfg, st, live, leaked, text, next) && p !in st.notes
    requires Distinct(n.episodes) && (forall u :: u in n.episodes ==> next <= u < next') && next <= next'
    requires TextKept(text, text', next) && RecordedFor(cfg, text', n, cfg.version, body)
    ensures Good(cfg, st.(notes := st.notes[p := n], failures := st.failures - {p}),
                 live + SetOf(n.episodes), leaked, text', next')
  {
    RecordNote(st.notes, live, leaked, next, p, n, next');
    StillRecorded(cfg, text, text', st.notes, live, leaked, next);
  }

  /**
   * One attempt at note `p`: recorded for this hash and its failures forgotten,
   * or unrecorded with one more failure; nothing else changes.
   */
  ghost predicate Attempted(cfg: Config, s: State, t: State, p: Path, n: Note, done: bool) {
    && t.commit == s.commit && t.backlog == s.backlog
    && (forall q :: q != p ==> SameAbout(s, t, q))
    && (done ==> Current(cfg, t, p, n) && p !in t.failures)
    && (!done ==> p !in t.notes && p in t.failures)
    && (!done ==> t.failures[p] == Failure(HashOf(cfg, n), Attempts(cfg, s, p, n) + 1))
  }

  lemma ClearedAndTried(cfg: Config, s: State, cleared: State, t: State, p: Path, n: Note, done: bool)
    requires cleared == if p in s.notes then s.(notes := s.notes - {p}) else s
    requires done ==> p in t.notes && t.notes[p].hash == HashOf(cfg, n)
    requires done ==> t == cleared.(notes := cleared.notes[p := t.notes[p]], failures := cleared.failures - {p})
    requires !done ==> t == cleared.(failures :=
      cleared.failures[p := Failure(HashOf(cfg, n), Attempts(cfg, cleared, p, n) + 1)])
    ensures Attempted(cfg, s, t, p, n, done)
  {
    assert Attempts(cfg, cleared, p, n) == Attempts(cfg, s, p, n);
  }

  /** While the chunks of a note are added: the new episodes, live and saying what they should. */
  ghost predicate Adding(live0: set<Uuid>, text0: map<Uuid, string>, next0: Uuid,
                         live: set<Uuid>, text: map<Uuid, string>, next: Uuid, uuids: seq<Uuid>, parts: seq<string>) {
    && Distinct(uuids) && (forall u :: u in uuids ==> next0 <= u < next) && next0 <= next
    && live == live0 + SetOf(uuids)
    && TextKept(text0, text, next0) && Says(text, uuids, parts)
  }

  lemma AddOne(live0: set<Uuid>, text0: map<Uuid, string>, next0: Uuid,
               live: set<Uuid>, text: map<Uuid, string>, next: Uuid, uuids: seq<Uuid>, parts: seq<string>, part: string)
    requires Adding(live0, text0, next0, live, text, next, uuids, parts)
    ensures Adding(live0, text0, next0, live + {next}, text[next := part], next + 1, uuids + [next], parts + [part])
  {
    forall i | 0 <= i < |uuids| ensures uuids[i] < next { assert uuids[i] in uuids; }
  }

  function Least(a: nat, b: nat): nat {
    if a < b then a else b
  }

  lemma NextGone(now: map<Path, Ingested>, before: map<Path, Ingested>, gone: seq<Path>, i: nat)
    requires i < |gone| && Distinct(gone) && forall p :: p in gone ==> p in before
    requires now == before - SetOf(gone[..i])
    ensures gone[i] in now && now - {gone[i]} == before - SetOf(gone[..i + 1])
  {
    assert gone[..i + 1] == gone[..i] + [gone[i]];
    assert gone[i] in gone && gone[i] !in gone[..i];
  }

  /** Only notes that exist are recorded, and nothing is changed about those. */
  ghost predicate Tidied(s: State, t: State, notes: Notes) {
    && (forall p :: p in notes ==> SameAbout(s, t, p))
    && (forall p :: p in t.notes || p in t.failures ==> p in notes)
  }

  /** Those of the notes that are current. */
  function DoneOf(cfg: Config, st: State, notes: Notes, paths: seq<Path>): set<Path> {
    set p | p in paths && p in notes && Current(cfg, st, p, notes[p])
  }

  /** Every note tried is recorded without failures, or has no episodes and one more failure for its hash. */
  ghost predicate TriedEach(cfg: Config, s: State, t: State, notes: Notes, tried: seq<Path>) {
    forall p :: p in tried ==> p in notes && TriedOne(cfg, s, t, p, notes[p])
  }

  ghost predicate TriedOne(cfg: Config, s: State, t: State, p: Path, n: Note) {
    if Current(cfg, t, p, n) then p !in t.failures
    else p !in t.notes && p in t.failures && t.failures[p] == Failure(HashOf(cfg, n), Attempts(cfg, s, p, n) + 1)
  }

  /**
   * What a batch does: the first notes are tried and only those change, `done` of
   * them are current afterwards, no note gains attempts, some note loses one if
   * any was tried, and if every pending note succeeded nothing is pending.
   */
  ghost predicate BatchEffect(cfg: Config, s: State, t: State, notes: Notes, pending: seq<Path>, tried: nat, done: nat) {
    && done <= tried <= Least(|pending|, cfg.batch)
    && (forall p :: p !in pending[..tried] ==> SameAbout(s, t, p))
    && TriedEach(cfg, s, t, notes, pending[..tried]) && done == |DoneOf(cfg, t, notes, pending[..tried])|
    && (forall p :: p in notes ==> Remaining(cfg, t, notes, p) <= Remaining(cfg, s, notes, p))
    && (tried > 0 ==> exists p :: p in notes && Remaining(cfg, t, notes, p) < Remaining(cfg, s, notes, p))
    && (done == |pending| ==> forall p :: !Pending(cfg, t, notes, p))
  }

  /** The loop of a batch, after `tried` notes. */
  ghost predicate InBatch(cfg: Config, s: State, t: State, notes: Notes, pending: seq<Path>, tried: nat, done: nat) {
    && done <= tried <= Least(|pending|, cfg.batch)
    && Progressed(cfg, s, t, notes, pending[..tried])
    && TriedEach(cfg, s, t, notes, pending[..tried]) && done == |DoneOf(cfg, t, notes, pending[..tried])|
    && (done == tried ==> AllCurrent(cfg, t, notes, pending[..tried]))
  }

  lemma NothingTried(cfg: Config, s: State, notes: Notes, pending: seq<Path>)
    ensures InBatch(cfg, s, s, notes, pending, 0, 0)
  {
    assert pending[..0] == [];
  }

  lemma BatchStep(cfg: Config, s: State, before: State, t: State, notes: Notes, pending: seq<Path>,
                  tried: nat, done: nat, worked: bool)
    requires cfg.maxAttempts > 0 && Distinct(pending) && forall p :: p in pending <==> Pending(cfg, s, notes, p)
    requires InBatch(cfg, s, before, notes, pending, tried, done) && tried < Least(|pending|, cfg.batch)
    requires pending[tried] in notes && Attempted(cfg, before, t, pending[tried], notes[pending[tried]], worked)
    ensures InBatch(cfg, s, t, notes, pending, tried + 1, if worked then done + 1 else done)
  {
    NextPending(pending, tried);
    ProgressStep(cfg, s, before, t, notes, pending[..tried], pending[tried], worked);
    TriedStep(cfg, s, before, t, notes, pending[..tried], pending[tried], worked);
  }

  lemma TriedStep(cfg: Config, s: State, before: State, t: State, notes: Notes, handled: seq<Path>, p: Path, worked: bool)
    requires TriedEach(cfg, s, before, notes, handled) && p !in handled && p in notes && SameAbout(s, before, p)
    requires Attempted(cfg, before, t, p, notes[p], worked)
    ensures TriedEach(cfg, s, t, notes, handled + [p])
    ensures |DoneOf(cfg, t, notes, handled + [p])| == |DoneOf(cfg, before, notes, handled)| + if worked then 1 else 0
  {
    var a, b := DoneOf(cfg, before, notes, handled), DoneOf(cfg, t, notes, handled + [p]);
    forall q | q in handled ensures TriedOne(cfg, s, t, q, notes[q]) && (q in a <==> q in b) { assert SameAbout(before, t, q); }
    assert p !in a && b == if worked then a + {p} else a;
    assert Attempts(cfg, before, p, notes[p]) == Attempts(cfg, s, p, notes[p]);
    forall q | q in handled + [p] ensures q in notes && TriedOne(cfg, s, t, q, notes[q]) {}
  }

  lemma BatchEnds(cfg: Config, s: State, t: State, notes: Notes, pending: seq<Path>, tried: nat, done: nat)
    requires forall p :: p in pending <==> Pending(cfg, s, notes, p)
    requires InBatch(cfg, s, t, notes, pending, tried, done)
    ensures BatchEffect(cfg, s, t, notes, pending, tried, done)
  {
    ProgressEnd(cfg, s, t, notes, pending, tried);
    if done == |pending| { assert pending[..tried] == pending; }
  }

  /**
   * What a cycle that is not cut short by the early exit does: of the pending
   * notes, in the order `newest`, the first are tried; all other existing notes
   * stay as they were and notes that are gone are dropped; attempts are used up;
   * the backlog is what was pending and is not done.
   */
  ghost predicate CycleEffect(cfg: Config, s: State, t: State, notes: Notes, newest: seq<Path>, tried: nat, done: nat) {
    && Distinct(newest) && NewestFirst(notes, newest) && (forall p :: p in newest <==> ToDo(cfg, s, notes, p))
    && done <= tried <= Least(|newest|, cfg.batch)
    && (forall p :: p in t.notes || p in t.failures ==> p in notes)
    && (forall p :: p in notes && p !in newest[..tried] ==> SameAbout(s, t, p))
    && TriedEach(cfg, s, t, notes, newest[..tried]) && done == |DoneOf(cfg, t, notes, newest[..tried])|
    && t.backlog == (|newest| > done)
    && Work(cfg, t, notes) <= Work(cfg, s, notes)
    && (tried > 0 ==> Work(cfg, t, notes) < Work(cfg, s, notes))
    && (!t.backlog ==> forall p :: !Pending(cfg, t, notes, p))
  }

  lemma TidiedAlike(cfg: Config, s: State, t: State, notes: Notes)
    requires Tidied(s, t, notes)
    ensures forall p :: Pending(cfg, t, notes, p) == Pending(cfg, s, notes, p)
    ensures forall p :: p in notes ==> Remaining(cfg, t, notes, p) == Remaining(cfg, s, notes, p)
  {
    forall p ensures Pending(cfg, t, notes, p) == Pending(cfg, s, notes, p)
             ensures p in notes ==> Remaining(cfg, t, notes, p) == Remaining(cfg, s, notes, p) {
      if p in notes { assert SameAbout(s, t, p); }
    }
  }

  /** The states of one cycle: as found, tidied, after the batch, and with the commit and the backlog written. */
  lemma CycleEnds(cfg: Config, s: State, tidied: State, worked: State, t: State, notes: Notes,
                  pending: seq<Path>, tried: nat, done: nat)
    requires Tidied(s, tidied, notes) && Distinct(pending) && NewestFirst(notes, pending)
    requires forall p :: p in pending <==> Pending(cfg, tidied, notes, p)
    requires BatchEffect(cfg, tidied, worked, notes, pending, tried, done)
    requires t.notes == worked.notes && t.failures == worked.failures && t.backlog == (|pending| > done)
    ensures CycleEffect(cfg, s, t, notes, pending, tried, done)
    ensures (exists p :: Pending(cfg, s, notes, p)) <==> pending != []
  {
    SamePending(cfg, s, tidied, notes, pending);
    StampKeeps(cfg, worked, t, notes);
    OutsideBatch(cfg, s, tidied, worked, notes, pending, tried, done);
    WorkFalls(cfg, s, tidied, worked, notes, pending, tried, done);
    forall p | p in notes && p !in pending[..tried] ensures SameAbout(s, t, p) { assert SameAbout(s, worked, p); }
    forall p ensures p in pending <==> ToDo(cfg, s, notes, p) { PendingIff(cfg, s, notes, p); }
    TriedAlike(cfg, s, tidied, worked, t, notes, pending[..tried]);
    if pending != [] { assert pending[0] in pending; }
  }

  lemma TriedAlike(cfg: Config, s: State, tidied: State, worked: State, t: State, notes: Notes, handled: seq<Path>)
    requires Tidied(s, tidied, notes) && TriedEach(cfg, tidied, worked, notes, handled)
    requires t.notes == worked.notes && t.failures == worked.failures
    ensures TriedEach(cfg, s, t, notes, handled)
    ensures DoneOf(cfg, t, notes, handled) == DoneOf(cfg, worked, notes, handled)
  {
    forall p | p in handled ensures TriedOne(cfg, s, t, p, notes[p]) {
      assert SameAbout(s, tidied, p) && TriedOne(cfg, tidied, worked, p, notes[p]);
      assert Attempts(cfg, s, p, notes[p]) == Attempts(cfg, tidied, p, notes[p]);
    }
  }

  lemma SamePending(cfg: Config, s: State, tidied: State, notes: Notes, pending: seq<Path>)
    requires Tidied(s, tidied, notes)
    requires forall p :: p in pending <==> Pending(cfg, tidied, notes, p)
    ensures forall p :: p in pending <==> Pending(cfg, s, notes, p)
  {
    TidiedAlike(cfg, s, tidied, notes);
  }

  lemma WorkFalls(cfg: Config, s: State, tidied: State, worked: State, notes: Notes,
                  pending: seq<Path>, tried: nat, done: nat)
    requires Tidied(s, tidied, notes) && BatchEffect(cfg, tidied, worked, notes, pending, tried, done)
    ensures Work(cfg, worked, notes) <= Work(cfg, s, notes)
    ensures tried > 0 ==> Work(cfg, worked, notes) < Work(cfg, s, notes)
  {
    TidiedAlike(cfg, s, tidied, notes);
    LessWork(cfg, s, worked, notes, SortedKeys(notes.Keys));
  }

  lemma OutsideBatch(cfg: Config, s: State, tidied: State, worked: State, notes: Notes,
                     pending: seq<Path>, tried: nat, done: nat)
    requires Tidied(s, tidied, notes)
    requires forall p :: p in pending <==> Pending(cfg, tidied, notes, p)
    requires BatchEffect(cfg, tidied, worked, notes, pending, tried, done)
    ensures forall p :: p in worked.notes || p in worked.failures ==> p in notes
    ensures forall p :: p in notes && p !in pending[..tried] ==> SameAbout(s, worked, p)
  {
    forall p | p in notes && p !in pending[..tried] ensures SameAbout(s, worked, p) {
      assert SameAbout(s, tidied, p) && SameAbout(tidied, worked, p);
    }
    forall p | p in worked.notes || p in worked.failures ensures p in notes {
      if p !in pending[..tried] { assert SameAbout(tidied, worked, p); }
    }
  }

  /** The note was recorded for a text whose hashed form collides with that of the empty note. */
  ghost predicate CollidesWithEmpty(cfg: Config, text: map<Uuid, string>, n: Ingested)
    requires cfg.limit > 0
  {
    exists version, body :: RecordedFor(cfg, text, n, version, body) && Collide(cfg.sha, Hashed(version, body), Hashed(cfg.version, ""))
  }

  /** At least `maxAttempts` failures are recorded for the note as it is. */
  ghost predicate GivenUp(cfg: Config, st: State, p: Path, n: Note) {
    && p in st.failures && st.failures[p].count >= cfg.maxAttempts
    && st.failures[p].hash == cfg.sha(cfg.version + "\n" + n.body)
  }

  /**
   * A settled worker: every non-empty note is current or out of attempts, and a
   * recorded note exists and is current exactly if it is not empty now, unless
   * the digest of what it was recorded for collides.
   */
  ghost predicate AllSettled(cfg: Config, text: map<Uuid, string>, st: State, notes: Notes)
    requires cfg.limit > 0
  {
    && (forall p :: p in notes && notes[p].body != "" ==> Current(cfg, st, p, notes[p]) || GivenUp(cfg, st, p, notes[p]))
    && (forall p :: p in st.notes ==> p in notes)
    && (forall p :: p in st.notes && notes[p].body != "" ==> Current(cfg, st, p, notes[p]))
    && (forall p :: p in st.notes && notes[p].body == "" && Current(cfg, st, p, notes[p]) ==>
          CollidesWithEmpty(cfg, text, st.notes[p]))
  }

  lemma SettledNotes(cfg: Config, st: State, repo: string -> Notes, head: string,
                     live: set<Uuid>, leaked: set<Uuid>, text: map<Uuid, string>, next: Uuid)
    requires Good(cfg, st, live, leaked, text, next) && Quiet(cfg, repo, st) && Skips(st, head)
    ensures AllSettled(cfg, text, st, repo(head))
  {
    var notes := repo(head);
    forall p | p in notes && notes[p].body != ""
      ensures Current(cfg, st, p, notes[p]) || GivenUp(cfg, st, p, notes[p])
    {
      assert !Pending(cfg, st, notes, p);
    }
    forall p | p in st.notes ensures p in notes && (notes[p].body != "" ==> Current(cfg, st, p, notes[p])) {
      assert !Pending(cfg, st, notes, p);
      assert p !in st.failures;
    }
    forall p | p in st.notes && notes[p].body == "" && Current(cfg, st, p, notes[p])
      ensures CollidesWithEmpty(cfg, text, st.notes[p])
    {
      var version, body, _ := CurrentNoteIsWhole(cfg, text, st, p, notes[p]);
    }
  }

  /** How each call to the outside turns out, by the number of calls made before. */
  datatype World = World(addWorks: nat -> bool, removeWorks: nat -> bool, unreachable: nat -> bool, stop: nat -> bool)

  ghost predicate AddsWork(w: World) {
    forall t :: w.addWorks(t)
  }

  ghost predicate RemovesWork(w: World) {
    forall t :: w.removeWorks(t)
  }

  /** The worker is never asked to stop. */
  ghost predicate Tireless(w: World) {
    forall t :: !w.stop(t)
  }

  /** No failure is taken for an unreachable service, or every one is. */
  ghost predicate Reachable(w: World) {
    forall t :: !w.unreachable(t)
  }

  ghost predicate Unreachable(w: World) {
    forall t :: w.unreachable(t)
  }

  ghost predicate PendingAre(cfg: Config, st: State, notes: Notes, pending: seq<Path>) {
    Distinct(pending) && forall p :: p in pending <==> Pending(cfg, st, notes, p)
  }

  ghost predicate SameStamp(s: State, t: State) {
    t.commit == s.commit && t.backlog == s.backlog
  }

  /**
   * Why a batch ended: `limit` notes were tried, the worker was asked to stop, or
   * a failure was taken for an unreachable service.
   */
  ghost predicate Ended(w: World, limit: nat, tried: nat, done: nat) {
    && (Tireless(w) ==> tried == limit || done < tried)
    && (Tireless(w) && Reachable(w) ==> tried == limit)
    && (Unreachable(w) ==> tried <= done + 1)
    && (AddsWork(w) ==> done == tried)
  }

  /** While the batch goes on. */
  ghost predicate Going(w: World, tried: nat, done: nat) {
    Unreachable(w) || AddsWork(w) ==> done == tried
  }

  ghost predicate Phase(w: World, limit: nat, tried: nat, done: nat, more: bool) {
    if more then Going(w, tried, done) else Ended(w, limit, tried, done)
  }

  /** The next `n` calls, if they add episodes, all work. */
  ghost predicate AllAdd(w: World, from: nat, n: nat) {
    forall t :: from <= t < from + n ==> w.addWorks(t)
  }

  class Worker {
    const cfg: Config
    const world: World
    var st: State
    var live: set<Uuid>
    ghost var leaked: set<Uuid>
    ghost var text: map<Uuid, string>
    var next: Uuid
    var tick: nat

    ghost predicate Valid()
      reads this
    {
      Good(cfg, st, live, leaked, text, next)
    }

    constructor (cfg: Config, world: World)
      requires ValidConfig(cfg)
      ensures Valid() && this.cfg == cfg && this.world == world
      ensures st == State(map[], map[], "", true) && live == {} && leaked == {}
    {
      this.cfg, this.world := cfg, world;
      st := State(map[], map[], "", true);
      live, leaked, text, next, tick := {}, {}, map[], 0, 0;
    }

    /** A restart from a saved state under another render version. */
    constructor Restart(saved: Config, version: string, world: World, st: State, live: set<Uuid>, ghost leaked: set<Uuid>,
                        ghost text: map<Uuid, string>, next: Uuid)
      requires Good(saved, st, live, leaked, text, next) && OneLine(version)
      ensures Valid() && cfg == saved.(version := version) && this.world == world
      ensures this.st == st && this.live == live && this.leaked == leaked && this.text == text && this.next == next
    {
      this.cfg, this.world, this.st := saved.(version := version), world, st;
      this.live, this.leaked, this.text, this.next, this.tick := live, leaked, text, next, 0;
      GoodUnderAnyVersion(saved, version, st, live, leaked, text, next);
    }

    /** `Ingester.remove`: a removal that fails is logged and forgotten. */
    method Remove(uuids: seq<Uuid>)
      modifies this`live, this`leaked, this`tick
      ensures old(leaked) <= leaked <= old(leaked) + SetOf(uuids)
      ensures live == old(live) - (SetOf(uuids) - leaked)
      ensures tick == old(tick) + |uuids|
      ensures forall i :: 0 <= i < |uuids| ==> (uuids[i] in leaked <==> !world.removeWorks(old(tick) + i))
      ensures RemovesWork(world) ==> leaked == old(leaked)
      requires forall u :: u in uuids ==> u in live && u !in leaked
      requires Distinct(uuids)
    {
      for i := 0 to |uuids|
        invariant old(leaked) <= leaked <= old(leaked) + SetOf(uuids[..i]) && tick == old(tick) + i
        invariant live == old(live) - (SetOf(uuids[..i]) - leaked)
        invariant forall j :: 0 <= j < i ==> (uuids[j] in leaked <==> !world.removeWorks(old(tick) + j))
        invariant RemovesWork(world) ==> leaked == old(leaked)
      {
        assert uuids[..i + 1] == uuids[..i] + [uuids[i]];
        assert uuids[i] !in uuids[..i] && uuids[i] in uuids;
        if world.removeWorks(tick) { live := live - {uuids[i]}; } else { leaked := leaked + {uuids[i]}; }
        tick := tick + 1;
      }
      assert uuids[..|uuids|] == uuids;
    }

    /** One episode, if the call works. */
    method AddPart(part: string) returns (ok: bool)
      modifies this`live, this`text, this`tick, this`next
      ensures ok == world.addWorks(old(tick)) && tick == old(tick) + 1
      ensures ok ==> live == old(live) + {old(next)} && text == old(text)[old(next) := part] && next == old(next) + 1
      ensures !ok ==> live == old(live) && text == old(text) && next == old(next)
    {
      ok := world.addWorks(tick);
      tick := tick + 1;
      if ok { live, text, next := live + {next}, text[next := part], next + 1; }
    }

    /** One episode per part, up to the first call that fails. */
    method AddParts(parts: seq<string>) returns (ok: bool, uuids: seq<Uuid>)
      modifies this`live, this`text, this`tick, this`next
      ensures |uuids| <= |parts| && Adding(old(live), old(text), old(next), live, text, next, uuids, parts[..|uuids|])
      ensures ok <==> AllAdd(world, old(tick), |parts|)
      ensures ok ==> |uuids| == |parts|
    {
      uuids := [];
      for i := 0 to |parts|
        invariant tick == old(tick) + i && |uuids| == i && AllAdd(world, old(tick), i)
        invariant Adding(old(live), old(text), old(next), live, text, next, uuids, parts[..i])
      {
        AddOne(old(live), old(text), old(next), live, text, next, uuids, parts[..i], parts[i]);
        var uuid := next;
        ok := AddPart(parts[i]);
        if !ok { return; }
        assert parts[..i + 1] == parts[..i] + [parts[i]];
        uuids := uuids + [uuid];
      }
      ok := true;
    }

    /** `Ingester.add`: one episode per chunk; on a failure the ones already added are taken back. */
    method Add(body: string) returns (ok: bool, uuids: seq<Uuid>)
      requires cfg.limit > 0
      requires leaked <= live && forall u :: u in live ==> u < next
      modifies this`live, this`leaked, this`text, this`tick, this`next
      ensures old(next) <= next && TextKept(old(text), text, old(next))
      ensures ok <==> AllAdd(world, old(tick), |Chunks.Chunked(body, cfg.limit)|)
      ensures ok ==>
        && Says(text, uuids, Chunks.Chunked(body, cfg.limit))
        && Distinct(uuids) && (forall u :: u in uuids ==> old(next) <= u < next)
        && live == old(live) + SetOf(uuids) && leaked == old(leaked)
      ensures !ok ==>
        && old(leaked) <= leaked && live == old(live) + (leaked - old(leaked))
        && (forall u :: u in leaked - old(leaked) ==> old(next) <= u < next)
      ensures RemovesWork(world) ==> leaked == old(leaked)
    {
      var parts := Chunks.ChunkLoop(body, cfg.limit);
      ok, uuids := AddParts(parts);
      if !ok {
        Remove(uuids);
        uuids := [];
      }
    }

    /** The old episodes of a note go, and with them its entry. */
    method Clear(p: Path)
      requires Valid() && p in st.notes
      modifies this`st, this`live, this`leaked, this`tick
      ensures Valid() && st == old(st).(notes := old(st).notes - {p})
      ensures RemovesWork(world) ==> leaked == old(leaked)
    {
      Remove(st.notes[p].episodes);
      DropGood(cfg, st, old(live), old(leaked), text, next, p, live, leaked);
      st := st.(notes := st.notes - {p});
    }

    /** New episodes for a note that has none, or one more failure. */
    method Record(p: Path, n: Note) returns (done: bool)
      requires Valid() && p !in st.notes && n.body != ""
      modifies this
      ensures Valid()
      ensures done ==> p in st.notes && RecordedFor(cfg, text, st.notes[p], cfg.version, n.body)
      ensures done ==> st == old(st).(notes := old(st).notes[p := st.notes[p]], failures := old(st).failures - {p})
      ensures !done ==> st == old(st).(failures :=
        old(st).failures[p := Failure(HashOf(cfg, n), Attempts(cfg, old(st), p, n) + 1)])
      ensures done <==> AllAdd(world, old(tick), |Chunks.Chunked(n.body, cfg.limit)|)
      ensures RemovesWork(world) ==> leaked == old(leaked)
    {
      var ok, uuids := Add(n.body);
      if !ok {
        var failure := Failure(HashOf(cfg, n), Attempts(cfg, st, p, n) + 1);
        FailGood(cfg, st, old(live), old(leaked), old(text), old(next), p, failure, live, leaked, text, next);
        st := st.(failures := st.failures[p := failure]);
        return false;
      }
      var recorded := Ingested(HashOf(cfg, n), uuids);
      RecordGood(cfg, st, old(live), old(leaked), old(text), old(next), p, recorded, n.body, text, next);
      st := st.(notes := st.notes[p := recorded], failures := st.failures - {p});
      return true;
    }

    /** One pending note of a cycle: old episodes out, new ones in, or one more failure. */
    method Attempt(p: Path, n: Note) returns (done: bool)
      requires Valid() && n.body != ""
      modifies this
      ensures Valid() && Attempted(cfg, old(st), st, p, n, done)
      ensures done ==> RecordedFor(cfg, text, st.notes[p], cfg.version, n.body)
      ensures AddsWork(world) ==> done
      ensures RemovesWork(world) ==> leaked == old(leaked)
    {
      if p in st.notes { Clear(p); }
      ghost var cleared := st;
      done := Record(p, n);
      ClearedAndTried(cfg, old(st), cleared, st, p, n, done);
    }

    /** The loop over the notes that are gone. */
    method ClearAll(gone: seq<Path>)
      requires Valid() && Distinct(gone) && forall p :: p in gone ==> p in st.notes
      modifies this`st, this`live, this`leaked, this`tick
      ensures Valid() && st == old(st).(notes := old(st).notes - SetOf(gone))
      ensures RemovesWork(world) ==> leaked == old(leaked)
    {
      for i := 0 to |gone|
        invariant Valid() && st == old(st).(notes := old(st).notes - SetOf(gone[..i]))
        invariant RemovesWork(world) ==> leaked == old(leaked)
      {
        NextGone(st.notes, old(st).notes, gone, i);
        Clear(gone[i]);
      }
      assert gone[..|gone|] == gone;
    }

    /** Episodes of notes that are gone are removed, their failures forgotten. */
    method DropDeleted(notes: Notes)
      requires Valid()
      modifies this
      ensures Valid()
      ensures st.commit == old(st.commit) && st.backlog == old(st.backlog)
      ensures Tidied(old(st), st, notes)
      ensures RemovesWork(world) ==> leaked == old(leaked)
    {
      var gone := SortedKeys(st.notes.Keys - notes.Keys);
      ClearAll(gone);
      ForgetFailures(cfg, st, live, leaked, text, next, notes);
      st := st.(failures := map p | p in st.failures && p in notes :: st.failures[p]);
      AllGone(old(st), st, notes, gone);
    }

    /** The next note of a batch, unless the worker is asked to stop. */
    method TryNext(notes: Notes, pending: seq<Path>, tried: nat, done: nat, ghost first: State)
      returns (tried': nat, done': nat, more: bool)
      requires Valid() && SameStamp(first, st) && PendingAre(cfg, first, notes, pending)
      requires InBatch(cfg, first, st, notes, pending, tried, done) && tried < Least(|pending|, cfg.batch)
      requires Going(world, tried, done)
      modifies this
      ensures Valid() && SameStamp(first, st)
      ensures InBatch(cfg, first, st, notes, pending, tried', done') && tried <= tried' && (more ==> tried < tried')
      ensures Phase(world, Least(|pending|, cfg.batch), tried', done', more)
      ensures RemovesWork(world) ==> leaked == old(leaked)
    {
      tried', done', more := tried, done, !world.stop(tick);
      if more {
        NextPending(pending, tried);
        var worked := Attempt(pending[tried], notes[pending[tried]]);
        BatchStep(cfg, first, old(st), st, notes, pending, tried, done, worked);
        tried' := tried + 1;
        if worked { done' := done + 1; } else { more := !world.unreachable(tick); }
      }
    }

    /** The loop of a batch. */
    method BatchLoop(notes: Notes, pending: seq<Path>, ghost first: State) returns (tried: nat, done: nat)
      requires Valid() && st == first
      requires PendingAre(cfg, first, notes, pending)
      modifies this
      ensures Valid() && SameStamp(first, st)
      ensures InBatch(cfg, first, st, notes, pending, tried, done) && Ended(world, Least(|pending|, cfg.batch), tried, done)
      ensures RemovesWork(world) ==> leaked == old(leaked)
    {
      tried, done := 0, 0;
      NothingTried(cfg, st, notes, pending);
      var more := true;
      while more && tried < |pending| && tried < cfg.batch
        invariant Valid() && SameStamp(first, st)
        invariant InBatch(cfg, first, st, notes, pending, tried, done)
        invariant Phase(world, Least(|pending|, cfg.batch), tried, done, more)
        invariant RemovesWork(world) ==> leaked == old(leaked)
        decreases more, |pending| - tried
      {
        tried, done, more := TryNext(notes, pending, tried, done, first);
      }
    }

    /** The batch of one cycle: how many notes were tried, and how many of them done. */
    method Batch(notes: Notes, pending: seq<Path>) returns (tried: nat, done: nat)
      requires Valid() && PendingAre(cfg, st, notes, pending)
      modifies this
      ensures Valid() && st.commit == old(st.commit) && st.backlog == old(st.backlog)
      ensures BatchEffect(cfg, old(st), st, notes, pending, tried, done) && Ended(world, Least(|pending|, cfg.batch), tried, done)
      ensures RemovesWork(world) ==> leaked == old(leaked)
    {
      tried, done := BatchLoop(notes, pending, st);
      BatchEnds(cfg, old(st), st, notes, pending, tried, done);
    }

    /**
     * `cycle` at branch head `head`. The early exit does nothing; otherwise the
     * newest pending notes are tried, a batch of them unless the worker stops or
     * an unreachable service ends the batch after a failure.
     */
    method Cycle(repo: string -> Notes, head: string) returns (tried: nat, done: nat, ghost newest: seq<Path>)
      requires Valid()
      modifies this
      ensures Valid()
      ensures Skips(old(st), head) ==>
        tried == 0 && st == old(st) && live == old(live) && text == old(text) && leaked == old(leaked)
      ensures !Skips(old(st), head) ==>
        CycleEffect(cfg, old(st), st, repo(head), newest, tried, done) && st.commit == head && Quiet(cfg, repo, st)
      ensures !Skips(old(st), head) ==> Ended(world, Least(|newest|, cfg.batch), tried, done)
      ensures !Skips(old(st), head) && (exists p :: Pending(cfg, old(st), repo(head), p)) && Tireless(world) ==>
        tried > 0
      ensures RemovesWork(world) ==> leaked == old(leaked)
    {
      if head == st.commit && !st.backlog {
        newest := [];
        return 0, 0, [];
      }
      tried, done, newest := FullCycle(repo(head), head);
      if exists p :: Pending(cfg, old(st), repo(head), p) {
        ghost var p :| Pending(cfg, old(st), repo(head), p);
        PendingIff(cfg, old(st), repo(head), p);
        assert p in newest;
      }
    }

    /** A cycle that is not cut short. */
    method FullCycle(notes: Notes, head: string) returns (tried: nat, done: nat, ghost newest: seq<Path>)
      requires Valid()
      modifies this
      ensures Valid() && st.commit == head
      ensures CycleEffect(cfg, old(st), st, notes, newest, tried, done) && Ended(world, Least(|newest|, cfg.batch), tried, done)
      ensures RemovesWork(world) ==> leaked == old(leaked)
    {
      DropDeleted(notes);
      ghost var tidied := st;
      var pending := PendingList(cfg, st, notes);
      newest := pending;
      tried, done := Batch(notes, pending);
      ghost var worked := st;
      st := st.(commit := head, backlog := |pending| > done);
      CycleEnds(cfg, old(st), tidied, worked, st, notes, pending, tried, done);
    }

    /**
     * Cycles at a fixed head until the early exit is taken, which it is after at
     * most one cycle per attempt left and one more. The worker must not start by
     * taking it with work pending.
     */
    method Settle(repo: string -> Notes, head: string) returns (cycles: nat)
      requires Valid() && (Quiet(cfg, repo, st) || !Skips(st, head))
      requires Tireless(world)
      modifies this
      ensures Valid() && Quiet(cfg, repo, st) && Skips(st, head)
      ensures AllSettled(cfg, text, st, repo(head))
      ensures AddsWork(world) ==>
        forall p :: old(ToDo(cfg, st, repo(head), p)) ==> Current(cfg, st, p, repo(head)[p])
      ensures cycles <= old(Work(cfg, st, repo(head))) + 1
    {
      cycles := 0;
      while st.commit != head || st.backlog
        invariant Valid() && (Quiet(cfg, repo, st) || !Skips(st, head))
        invariant cycles + Work(cfg, st, repo(head)) <= old(Work(cfg, st, repo(head)))
               || (Skips(st, head) && cycles <= old(Work(cfg, st, repo(head))) + 1)
        invariant AddsWork(world) ==>
          forall p :: old(ToDo(cfg, st, repo(head), p)) ==> InHand(cfg, st, repo(head), p)
        decreases Work(cfg, st, repo(head)), st.commit != head || st.backlog
      {
        ghost var before := st;
        var tried, done, newest := Cycle(repo, head);
        cycles := cycles + 1;
        if AddsWork(world) { StaysInHand(cfg, before, st, repo(head), newest, tried); }
      }
      SettledNotes(cfg, st, repo, head, live, leaked, text, next);
    }
  }

  /** The note is current, or still to be done. */
  ghost predicate InHand(cfg: Config, st: State, notes: Notes, p: Path) {
    p in notes && (Current(cfg, st, p, notes[p]) || ToDo(cfg, st, notes, p))
  }

  /** When every note tried is done, no note gets out of hand. */
  lemma StaysInHand(cfg: Config, s: State, t: State, notes: Notes, newest: seq<Path>, tried: nat)
    requires CycleEffect(cfg, s, t, notes, newest, tried, tried)
    ensures forall p :: InHand(cfg, s, notes, p) ==> InHand(cfg, t, notes, p)
  {
    var handled := newest[..tried];
    SetSize(handled);
    SubsetOfSameSize(DoneOf(cfg, t, notes, handled), SetOf(handled));
    forall p | InHand(cfg, s, notes, p) ensures InHand(cfg, t, notes, p) {
      if p in handled { assert p in DoneOf(cfg, t, notes, handled); } else { assert SameAbout(s, t, p); }
    }
  }

  /** Writing the commit and the backlog flag changes nothing about any note. */
  lemma {:induction false} StampKeeps(cfg: Config, s: State, t: State, notes: Notes)
    requires s.notes == t.notes && s.failures == t.failures
    ensures forall p :: Pending(cfg, s, notes, p) == Pending(cfg, t, notes, p)
    ensures Work(cfg, s, notes) == Work(cfg, t, notes)
  {
    forall p ensures Pending(cfg, s, notes, p) == Pending(cfg, t, notes, p)
             ensures Remaining(cfg, s, notes, p) == Remaining(cfg, t, notes, p) {
      if p in notes { assert Attempts(cfg, s, p, notes[p]) == Attempts(cfg, t, p, notes[p]); }
    }
    LessWork(cfg, s, t, notes, SortedKeys(notes.Keys));
    LessWork(cfg, t, s, notes, SortedKeys(notes.Keys));
  }

  /** The guard of the early exit. */
  predicate Skips(st: State, head: string) {
    head == st.commit && !st.backlog
  }

  /**
   * Nothing is hidden behind the shortcut: only notes of the recorded commit
   * are recorded, and without a backlog all of them are done.
   */
  ghost predicate Quiet(cfg: Config, repo: string -> Notes, st: State) {
    && (forall p :: p in st.notes || p in st.failures ==> p in repo(st.commit))
    && (!st.backlog ==> forall p :: !Pending(cfg, st, repo(st.commit), p))
  }

  lemma NextPending(pending: seq<Path>, i: nat)
    requires Distinct(pending) && i < |pending|
    ensures pending[..i + 1] == pending[..i] + [pending[i]] && pending[i] in pending && pending[i] !in pending[..i]
  {
  }

  /** The paths handled so far have fewer attempts left; nothing is changed about other paths. */
  ghost predicate Progressed(cfg: Config, first: State, now: State, notes: Notes, handled: seq<Path>) {
    && (forall q :: q !in handled ==> SameAbout(first, now, q))
    && (forall q :: q in handled ==> Remaining(cfg, now, notes, q) < Remaining(cfg, first, notes, q))
  }

  ghost predicate AllCurrent(cfg: Config, st: State, notes: Notes, paths: seq<Path>) {
    forall q :: q in paths ==> q in notes && Current(cfg, st, q, notes[q])
  }

  lemma ProgressStep(cfg: Config, first: State, before: State, after: State, notes: Notes, handled: seq<Path>, p: Path, worked: bool)
    requires Progressed(cfg, first, before, notes, handled) && p !in handled
    requires Pending(cfg, first, notes, p) && cfg.maxAttempts > 0
    requires Attempted(cfg, before, after, p, notes[p], worked)
    ensures Progressed(cfg, first, after, notes, handled + [p])
    ensures worked && AllCurrent(cfg, before, notes, handled) ==> AllCurrent(cfg, after, notes, handled + [p])
  {
    AttemptProgress(cfg, first, before, after, notes, p, worked);
    forall q | q in handled + [p] ensures Remaining(cfg, after, notes, q) < Remaining(cfg, first, notes, q) {
      if q != p { assert SameAbout(before, after, q); }
    }
    forall q | q !in handled + [p] ensures SameAbout(first, after, q) {
      assert SameAbout(first, before, q) && SameAbout(before, after, q);
    }
    if worked && AllCurrent(cfg, before, notes, handled) {
      forall q | q in handled + [p] ensures q in notes && Current(cfg, after, q, notes[q]) {
        if q != p { assert SameAbout(before, after, q); }
      }
    }
  }

  lemma ProgressEnd(cfg: Config, first: State, now: State, notes: Notes, pending: seq<Path>, i: nat)
    requires i <= |pending| && Progressed(cfg, first, now, notes, pending[..i])
    requires forall p :: p in pending <==> Pending(cfg, first, notes, p)
    ensures forall p :: p in notes ==> Remaining(cfg, now, notes, p) <= Remaining(cfg, first, notes, p)
    ensures i > 0 ==> exists p :: p in notes && Remaining(cfg, now, notes, p) < Remaining(cfg, first, notes, p)
    ensures i == |pending| && AllCurrent(cfg, now, notes, pending) ==> forall p :: !Pending(cfg, now, notes, p)
  {
    forall p | p in notes ensures Remaining(cfg, now, notes, p) <= Remaining(cfg, first, notes, p) {
      if p !in pending[..i] { assert SameAbout(first, now, p); }
    }
    if i > 0 {
      assert pending[0] in pending[..i] && pending[0] in pending;
      assert Remaining(cfg, now, notes, pending[0]) < Remaining(cfg, first, notes, pending[0]);
    }
    if i == |pending| && AllCurrent(cfg, now, notes, pending) {
      assert pending[..i] == pending;
      forall p ensures !Pending(cfg, now, notes, p) {
        if p !in pending { assert SameAbout(first, now, p); }
      }
    }
  }

  /** One attempt at a pending note uses up the note or an attempt. */
  lemma AttemptProgress(cfg: Config, first: State, before: State, after: State, notes: Notes, p: Path, worked: bool)
    requires Pending(cfg, first, notes, p) && SameAbout(first, before, p) && cfg.maxAttempts > 0
    requires Attempted(cfg, before, after, p, notes[p], worked)
    ensures Remaining(cfg, after, notes, p) < Remaining(cfg, first, notes, p)
  {
  }
}
