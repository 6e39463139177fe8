// Where the ingest worker's promise stops: a new render version behind the early
// exit, and notes that become empty.

module IngestLimits {
  import opened Common
  import opened Ingest

  // ------------------------------------------------------------ a new render version

  /** No entry of the state carries a hash of the current version: the version is new. */
  ghost predicate NewVersion(cfg: Config, st: State, notes: Notes) {
    forall p :: p in notes ==>
      && (p in st.notes ==> st.notes[p].hash != HashOf(cfg, notes[p]))
      && (p in st.failures ==> st.failures[p].hash != HashOf(cfg, notes[p]))
  }

  /** Under a new version every non-empty note is pending. */
  lemma AllPending(cfg: Config, st: State, notes: Notes, p: Path)
    requires NewVersion(cfg, st, notes)
    ensures Pending(cfg, st, notes, p) <==> p in notes && notes[p].body != ""
  {
  }

  /**
   * The first cycle after a bump of the render version, with at least one
   * non-empty note: it tries nothing if and only if the head has not moved and
   * there is no backlog.
   */
  method CycleAfterBump(w: Worker, repo: string -> Notes, head: string) returns (tried: nat)
    requires w.Valid() && NewVersion(w.cfg, w.st, repo(head))
    requires exists p :: p in repo(head) && repo(head)[p].body != ""
    requires Tireless(w.world)
    modifies w
    ensures w.Valid()
    ensures tried == 0 <==> head == old(w.st.commit) && !old(w.st.backlog)
    ensures tried == 0 ==> w.st == old(w.st) && NewVersion(w.cfg, w.st, repo(head))
  {
    ghost var p :| p in repo(head) && repo(head)[p].body != "";
    AllPending(w.cfg, w.st, repo(head), p);
    ghost var newest;
    var done;
    tried, done, newest := w.Cycle(repo, head);
  }

  function NonEmpty(notes: Notes, paths: seq<Path>): nat {
    if paths == [] then 0
    else (if paths[0] in notes && notes[paths[0]].body != "" then 1 else 0) + NonEmpty(notes, paths[1..])
  }

  /** How many notes have a text. */
  function Texts(notes: Notes): nat {
    NonEmpty(notes, SortedKeys(notes.Keys))
  }

  lemma {:induction false} FreshAttempts(cfg: Config, st: State, notes: Notes, paths: seq<Path>)
    requires NewVersion(cfg, st, notes)
    ensures WorkOn(cfg, st, notes, paths) == cfg.maxAttempts * NonEmpty(notes, paths)
  {
    if paths != [] {
      FreshAttempts(cfg, st, notes, paths[1..]);
      AllPending(cfg, st, notes, paths[0]);
      if Pending(cfg, st, notes, paths[0]) {
        assert Remaining(cfg, st, notes, paths[0]) == cfg.maxAttempts;
        assert NonEmpty(notes, paths) == 1 + NonEmpty(notes, paths[1..]);
        Distribute(cfg.maxAttempts, NonEmpty(notes, paths[1..]));
      }
    }
  }

  lemma Distribute(m: nat, n: nat)
    ensures m + m * n == m * (1 + n)
  {
  }

  /** Under a new version every note has all its attempts again, whatever failed before. */
  lemma AttemptsRestored(cfg: Config, st: State, notes: Notes)
    requires NewVersion(cfg, st, notes)
    ensures Work(cfg, st, notes) == cfg.maxAttempts * Texts(notes)
  {
    FreshAttempts(cfg, st, notes, SortedKeys(notes.Keys));
  }

  /**
   * Once the head has moved, or with a backlog, the new version is ingested:
   * every non-empty note becomes current under it or runs out of attempts, in
   * at most one cycle per note and attempt and one more.
   */
  method SettleAfterBump(w: Worker, repo: string -> Notes, head: string) returns (cycles: nat)
    requires w.Valid() && NewVersion(w.cfg, w.st, repo(head)) && !Skips(w.st, head)
    requires Tireless(w.world)
    modifies w
    ensures w.Valid() && Skips(w.st, head) && AllSettled(w.cfg, w.text, w.st, repo(head))
    ensures cycles <= w.cfg.maxAttempts * Texts(repo(head)) + 1
  {
    AttemptsRestored(w.cfg, w.st, repo(head));
    cycles := w.Settle(repo, head);
  }

  // ------------------------------------------------------------ examples

  /** A digest that keeps everything. */
  function Itself(text: string): string {
    text
  }

  const OLD := Config("1", 10, 3, 100, Itself)
  const NOTE: Notes := map["p" := Note("x", None)]
  const EMPTIED: Notes := map["p" := Note("", None)]
  const SETTLED := State(map["p" := Ingested("1\nx", [0])], map[], "head", false)
  const TEXT: map<Uuid, string> := map[0 := "x"]

  lemma SettledIsGood()
    ensures Good(OLD, SETTLED, {0}, {}, TEXT, 1)
  {
    assert Chunks.Chunked("x", 100) == ["x"];
    assert Hashed("1", "x") == "1\nx";
    assert RecordedFor(OLD, TEXT, SETTLED.notes["p"], "1", "x");
    assert 0 in SETTLED.notes["p"].episodes;
  }

  /** A settled worker restarts with version "2" at the same head: the note is pending and the early exit is taken. */
  lemma BumpIsSkipped(repo: string -> Notes)
    requires repo("head") == NOTE
    ensures Good(OLD, SETTLED, {0}, {}, TEXT, 1) && Quiet(OLD, repo, SETTLED)
    ensures var bumped := OLD.(version := "2");
      && Good(bumped, SETTLED, {0}, {}, TEXT, 1) && NewVersion(bumped, SETTLED, repo("head"))
      && Skips(SETTLED, "head") && Pending(bumped, SETTLED, repo("head"), "p")
  {
    SettledIsGood();
    GoodUnderAnyVersion(OLD, "2", SETTLED, {0}, {}, TEXT, 1);
    assert Hashed("1", "x") == "1\nx" && Hashed("2", "x")[0] == '2';
  }

  /** A settled worker whose only note has become empty: the old episode stays recorded and live, and nothing is pending. */
  lemma EmptiedNoteStays(repo: string -> Notes)
    requires repo("head") == EMPTIED
    ensures Good(OLD, SETTLED, {0}, {}, TEXT, 1) && Quiet(OLD, repo, SETTLED)
    ensures AllSettled(OLD, TEXT, SETTLED, repo("head"))
    ensures "p" in SETTLED.notes && !Current(OLD, SETTLED, "p", repo("head")["p"])
  {
    SettledIsGood();
    assert |Hashed("1", "")| == 2 && |"1\nx"| == 3;
    SettledNotes(OLD, SETTLED, repo, "head", {0}, {}, TEXT, 1);
  }
}
