/** pkg/auditlog: the hash-chained event log, its scanner, and what happens when
    several handles append to one file.

    The file is a list of lines, and what follows the last newline. JSON encoding and decoding of an entry and the hash
    are parameters; `dec` decodes a line with the surrounding space already trimmed. */
module AuditLog {
  import opened Text

  datatype Entry = Entry(seqno: nat, ts: string, event: string, detail: string, prevHash: string, entryHash: string)

  datatype Form = Form(enc: Entry -> string, dec: string -> Option<Entry>, h: Hash)

  datatype ChainError = Malformed | OutOfOrder | BrokenLink | HashMismatch

  /** A chain error names the entry it was expecting; a line too long for the scanner is
      reported as the scanner's own error. */
  datatype ScanError = Broken(seqno: nat, problem: ChainError) | LineTooLong

  const GENESIS: string := Repeat('0', 64)
  const MAX_LINE := 4 * 1024 * 1024

  predicate TooLong(line: string) { |line| >= MAX_LINE }

  /** The bytes entry_hash is taken over. */
  function Message(f: Form, e: Entry): string { f.enc(e.(entryHash := "")) }

  function EntryHash(f: Form, e: Entry): string { f.h(Message(f, e)) }

  /* ---------- what a clean log is ---------- */

  function Head(es: seq<Entry>): string { if es == [] then GENESIS else es[|es| - 1].entryHash }

  /** `e` is the entry that may follow `es`. */
  predicate Follows(f: Form, es: seq<Entry>, e: Entry) {
    e.seqno == |es| + 1 && e.prevHash == Head(es) && e.entryHash == EntryHash(f, e)
  }

  predicate LinkedAt(f: Form, es: seq<Entry>, i: nat)
    requires i < |es|
  {
    Follows(f, es[..i], es[i])
  }

  predicate Chain(f: Form, es: seq<Entry>) {
    forall i :: 0 <= i < |es| ==> LinkedAt(f, es, i)
  }

  /** The entries of a file, blank lines aside; None if a line cannot be read. */
  function Entries(f: Form, lines: seq<string>): Option<seq<Entry>> {
    if lines == [] then Some([])
    else
      var line := lines[|lines| - 1];
      match Entries(f, lines[..|lines| - 1])
      case None => None
      case Some(es) =>
        if TooLong(line) then None
        else if Blank(line) then Some(es)
        else if f.dec(line).None? then None
        else Some(es + [f.dec(line).value])
  }

  predicate Verifies(f: Form, lines: seq<string>) {
    Entries(f, lines).Some? && Chain(f, Entries(f, lines).value)
  }

  function CountEntries(lines: seq<string>): nat {
    if lines == [] then 0
    else CountEntries(lines[..|lines| - 1]) + if Blank(lines[|lines| - 1]) then 0 else 1
  }

  lemma ChainGrows(f: Form, es: seq<Entry>, e: Entry)
    ensures Chain(f, es + [e]) <==> Chain(f, es) && Follows(f, es, e)
  {
    var longer := es + [e];
    assert longer[..|es|] == es;
    forall i | 0 <= i < |es| ensures LinkedAt(f, longer, i) <==> LinkedAt(f, es, i) {
      assert longer[..i] == es[..i];
    }
    assert LinkedAt(f, longer, |es|) <==> Follows(f, es, e);
    if Chain(f, es) && Follows(f, es, e) {
      forall i | 0 <= i < |longer| ensures LinkedAt(f, longer, i) {
        assert i < |es| ==> LinkedAt(f, es, i);
      }
    }
  }

  /** What one more line does to a file. */
  lemma VerifiesGrows(f: Form, lines: seq<string>, line: string)
    ensures Verifies(f, lines + [line]) <==>
            && Verifies(f, lines) && !TooLong(line)
            && (Blank(line) || (f.dec(line).Some? && Follows(f, Entries(f, lines).value, f.dec(line).value)))
    ensures Verifies(f, lines + [line]) ==>
            Entries(f, lines + [line]).value ==
            Entries(f, lines).value + if Blank(line) then [] else [f.dec(line).value]
    ensures CountEntries(lines + [line]) == CountEntries(lines) + if Blank(line) then 0 else 1
  {
    assert (lines + [line])[..|lines|] == lines;
    if Entries(f, lines).Some? && f.dec(line).Some? {
      ChainGrows(f, Entries(f, lines).value, f.dec(line).value);
    }
  }

  /** The entry at `i` is numbered from 1, carries the hash of the one before it, the first
      64 zeros, and its own: that of its encoding without it. */
  ghost predicate InPlace(f: Form, es: seq<Entry>, i: nat)
    requires i < |es|
  {
    && es[i].seqno == i + 1
    && (i > 0 ==> es[i].prevHash == es[i - 1].entryHash)
    && (i == 0 ==> |es[i].prevHash| == 64 && forall k :: 0 <= k < 64 ==> es[i].prevHash[k] == '0')
    && es[i].entryHash == f.h(f.enc(es[i].(entryHash := "")))
  }

  /** A clean log, field by field. */
  lemma ChainIff(f: Form, es: seq<Entry>)
    ensures Chain(f, es) <==> forall i :: 0 <= i < |es| ==> InPlace(f, es, i)
  {
    forall i | 0 <= i < |es| ensures LinkedAt(f, es, i) <==> InPlace(f, es, i) {
      assert i > 0 ==> es[..i][|es[..i]| - 1] == es[i - 1];
      assert |GENESIS| == 64 && forall k :: 0 <= k < 64 ==> GENESIS[k] == '0';
    }
  }

  /** Every prefix of a clean log is a clean log, so a broken one stays broken. */
  lemma {:induction false} PrefixVerifies(f: Form, lines: seq<string>, k: nat)
    requires k <= |lines| && Verifies(f, lines)
    ensures Verifies(f, lines[..k])
  {
    if k == |lines| {
      assert lines[..k] == lines;
    } else {
      var init := lines[..|lines| - 1];
      assert lines == init + [lines[|lines| - 1]];
      VerifiesGrows(f, init, lines[|lines| - 1]);
      PrefixVerifies(f, init, k);
      assert init[..k] == lines[..k];
    }
  }

  lemma {:induction false} CountOfClean(f: Form, lines: seq<string>)
    requires Verifies(f, lines)
    ensures |Entries(f, lines).value| == CountEntries(lines)
  {
    if lines != [] {
      var init := lines[..|lines| - 1];
      assert lines == init + [lines[|lines| - 1]];
      VerifiesGrows(f, init, lines[|lines| - 1]);
      CountOfClean(f, init);
    }
  }

  /* ---------- the scanner ---------- */

  /** The entry names the hash of the one before it. */
  predicate NamesLast(es: seq<Entry>, e: Entry) {
    if es == [] then |e.prevHash| == 64 && forall k :: 0 <= k < 64 ==> e.prevHash[k] == '0'
    else e.prevHash == es[|es| - 1].entryHash
  }

  /** What is wrong with a line that is neither blank nor too long, behind these entries. */
  ghost predicate IsWrong(f: Form, es: seq<Entry>, line: string, problem: ChainError) {
    match f.dec(line)
    case None => problem == Malformed
    case Some(e) =>
      if e.seqno != |es| + 1 then problem == OutOfOrder
      else if !NamesLast(es, e) then problem == BrokenLink
      else problem == HashMismatch && e.entryHash != f.h(f.enc(e.(entryHash := "")))
  }

  lemma NamesLastIff(es: seq<Entry>, e: Entry)
    ensures NamesLast(es, e) <==> e.prevHash == Head(es)
  {
    assert |GENESIS| == 64 && forall k :: 0 <= k < 64 ==> GENESIS[k] == '0';
  }

  /** scan: it succeeds exactly on clean files; otherwise it stops at the end of the
      longest clean prefix, counts the entries of that prefix, and a chain error names
      the entry after them. */
  method Scan(f: Form, lines: seq<string>)
    returns (n: nat, last: Option<Entry>, error: Option<ScanError>, ghost stop: nat)
    ensures error.None? <==> Verifies(f, lines)
    ensures stop <= |lines| && Verifies(f, lines[..stop])
    ensures forall m :: stop < m <= |lines| ==> !Verifies(f, lines[..m])
    ensures n == |Entries(f, lines[..stop]).value|
    ensures error.Some? && error.value.Broken? ==>
              && error.value.seqno == n + 1 && stop < |lines| && !Blank(lines[stop])
              && IsWrong(f, Entries(f, lines[..stop]).value, lines[stop], error.value.problem)
    ensures error == Some(LineTooLong) <==> stop < |lines| && |lines[stop]| >= 4194304
    ensures n == 0 ==> last == None
    ensures n > 0 ==> last == Some(Entries(f, lines[..stop]).value[n - 1])
    ensures error.None? ==> stop == |lines|
  {
    var prev, wantSeq := GENESIS, 1;
    n, last := 0, None;
    for i := 0 to |lines|
      invariant Verifies(f, lines[..i])
      invariant n == |Entries(f, lines[..i]).value| && wantSeq == n + 1
      invariant prev == Head(Entries(f, lines[..i]).value)
      invariant n == 0 ==> last == None
      invariant n > 0 ==> last == Some(Entries(f, lines[..i]).value[n - 1])
    {
      stop := i;
      var line := lines[i];
      assert lines[..i + 1] == lines[..i] + [line];
      VerifiesGrows(f, lines[..i], line);
      var problem := Judge(f, prev, wantSeq, line);
      if problem.Some? {
        BrokenFromHere(f, lines, i);
        if f.dec(line).Some? {
          NamesLastIff(Entries(f, lines[..i]).value, f.dec(line).value);
        }
        return n, last, problem, stop;
      }
      if !Blank(line) {
        var e := f.dec(line).value;
        prev, last, n, wantSeq := e.entryHash, Some(e), n + 1, wantSeq + 1;
      }
    }
    stop := |lines|;
    assert lines[..stop] == lines;
    error := None;
  }

  /** One line through the scanner: its complaint, if any. */
  function Judge(f: Form, prev: string, wantSeq: nat, line: string): Option<ScanError> {
    if TooLong(line) then Some(LineTooLong)
    else if Blank(line) then None
    else
      match f.dec(line)
      case None => Some(Broken(wantSeq, Malformed))
      case Some(e) =>
        if e.seqno != wantSeq then Some(Broken(wantSeq, OutOfOrder))
        else if e.prevHash != prev then Some(Broken(wantSeq, BrokenLink))
        else if EntryHash(f, e) != e.entryHash then Some(Broken(wantSeq, HashMismatch))
        else None
  }

  lemma BrokenFromHere(f: Form, lines: seq<string>, i: nat)
    requires i < |lines| && !Verifies(f, lines[..i + 1])
    ensures forall m :: i < m <= |lines| ==> !Verifies(f, lines[..m])
    ensures !Verifies(f, lines)
  {
    forall m | i < m <= |lines| ensures !Verifies(f, lines[..m]) {
      assert lines[..m][..i + 1] == lines[..i + 1];
      if Verifies(f, lines[..m]) {
        PrefixVerifies(f, lines[..m], i + 1);
      }
    }
    assert lines[..|lines|] == lines;
  }

  /* ---------- handles ---------- */

  datatype Handle = Handle(lastSeq: nat, lastHash: string)

  function HandleAt(f: Form, lines: seq<string>): Handle
    requires Verifies(f, lines)
  {
    var es := Entries(f, lines).value;
    if es == [] then Handle(0, GENESIS) else Handle(es[|es| - 1].seqno, Head(es))
  }

  function NextEntry(f: Form, l: Handle, ts: string, event: string, detail: string): Entry {
    var e := Entry(l.lastSeq + 1, ts, event, detail, l.lastHash, "");
    e.(entryHash := EntryHash(f, e))
  }

  /** The entry survives being written and scanned back: valid UTF-8, and a line within the scanner's limit. */
  predicate Storable(f: Form, e: Entry) {
    f.dec(f.enc(e)) == Some(e) && !TooLong(f.enc(e)) && !Blank(f.enc(e))
  }

  /** A file: its lines, and what stands after the last newline. */
  datatype Content = Content(lines: seq<string>, tail: string)

  /** The lines a scanner sees: one that is not ended counts as well. */
  function Scanned(c: Content): seq<string> { if c.tail == "" then c.lines else c.lines + [c.tail] }

  class LogFile {
    var content: Content

    constructor (initial: Content)
      ensures content == initial
    {
      content := initial;
    }
  }

  /** How the two system calls of Append went. A write that fails has put the first `kept`
      bytes of the line into the file, and never the newline. */
  datatype WriteOutcome = Written | SyncFailed | Torn(kept: nat)

  predicate NothingWritten(outcome: WriteOutcome) { outcome.Torn? && outcome.kept == 0 }

  /** What of a line gets into the file. */
  function Kept(line: string, outcome: WriteOutcome): string {
    if outcome.Torn? then Prefix(line, outcome.kept) else line
  }

  function After(c: Content, line: string, outcome: WriteOutcome): Content {
    if outcome.Torn? then Content(c.lines, c.tail + Prefix(line, outcome.kept))
    else Content(c.lines + [c.tail + line], "")
  }

  class Log {
    const file: LogFile
    var lastSeq: nat
    var lastHash: string

    constructor Attach(file: LogFile, lastSeq: nat, lastHash: string)
      ensures this.file == file && this.lastSeq == lastSeq && this.lastHash == lastHash
    {
      this.file := file;
      this.lastSeq := lastSeq;
      this.lastHash := lastHash;
    }

    function AsHandle(): Handle
      reads this
    {
      Handle(lastSeq, lastHash)
    }

    /** Open refuses exactly the broken files, and leaves the file alone either way. */
    static method Open(f: Form, file: LogFile) returns (l: Log?)
      ensures l != null <==> Verifies(f, Scanned(file.content))
      ensures l != null ==> fresh(l) && l.file == file && l.AsHandle() == HandleAt(f, Scanned(file.content))
    {
      var lines := Scanned(file.content);
      var n, last, error, stop := Scan(f, lines);
      if error.Some? {
        return null;
      }
      assert lines[..stop] == lines;
      if n > 0 {
        l := new Log.Attach(file, last.value.seqno, last.value.entryHash);
      } else {
        l := new Log.Attach(file, 0, GENESIS);
      }
    }

    /** Append writes the entry that follows what this handle last saw, and the handle
        advances only when both system calls succeeded. */
    method Append(f: Form, ts: string, event: string, detail: string, outcome: WriteOutcome)
      returns (e: Option<Entry>)
      modifies this, file
      ensures e == if outcome.Written? then Some(NextEntry(f, old(AsHandle()), ts, event, detail)) else None
      ensures e.Some? ==>
                && e.value == Entry(old(lastSeq) + 1, ts, event, detail, old(lastHash), e.value.entryHash)
                && e.value.entryHash == f.h(f.enc(e.value.(entryHash := "")))
      ensures file.content ==
              After(old(file.content), f.enc(NextEntry(f, old(AsHandle()), ts, event, detail)), outcome)
      ensures AsHandle() == if outcome.Written? then Handle(old(lastSeq) + 1, e.value.entryHash) else old(AsHandle())
    {
      var entry := Entry(lastSeq + 1, ts, event, detail, lastHash, "");
      entry := entry.(entryHash := EntryHash(f, entry));
      var line := f.enc(entry);
      if outcome.Torn? {
        file.content := Content(file.content.lines, file.content.tail + Prefix(line, outcome.kept));
        return None;
      }
      file.content := Content(file.content.lines + [file.content.tail + line], "");
      if outcome.SyncFailed? {
        return None;
      }
      lastSeq, lastHash := entry.seqno, entry.entryHash;
      e := Some(entry);
    }
  }

  /* ---------- any number of handles on one file ---------- */

  datatype World = World(content: Content, handles: map<nat, Handle>)

  datatype Act =
    | OpenAs(id: nat)
    | AppendBy(id: nat, ts: string, event: string, detail: string, outcome: WriteOutcome)

  /** The entry an append of `a` is about. */
  function EntryOf(f: Form, w: World, a: Act): Entry
    requires a.AppendBy? && a.id in w.handles
  {
    NextEntry(f, w.handles[a.id], a.ts, a.event, a.detail)
  }

  function Apply(f: Form, w: World, a: Act): World {
    match a
    case OpenAs(id) =>
      if Verifies(f, Scanned(w.content)) then w.(handles := w.handles[id := HandleAt(f, Scanned(w.content))]) else w
    case AppendBy(id, ts, event, detail, outcome) =>
      if id !in w.handles then w
      else
        var e := EntryOf(f, w, a);
        World(After(w.content, f.enc(e), outcome),
              if outcome.Written? then w.handles[id := Handle(e.seqno, e.entryHash)] else w.handles)
  }

  function Exec(f: Form, w: World, run: seq<Act>): World {
    if run == [] then w else Apply(f, Exec(f, w, run[..|run| - 1]), run[|run| - 1])
  }

  /** Action `a` puts something into the file. */
  predicate Writes(w: World, a: Act) {
    a.AppendBy? && a.id in w.handles && !NothingWritten(a.outcome)
  }

  /** An append is fresh when the file ends with a newline, the handle last saw the last
      entry, and the whole line gets written; that its newline is lost does not matter yet. */
  predicate Fresh(f: Form, w: World, a: Act) {
    Writes(w, a) ==>
      && w.content.tail == "" && w.handles[a.id].lastSeq == CountEntries(w.content.lines)
      && Kept(f.enc(EntryOf(f, w, a)), a.outcome) == f.enc(EntryOf(f, w, a))
  }

  predicate AllFresh(f: Form, w: World, run: seq<Act>) {
    run == [] ||
    (AllFresh(f, w, run[..|run| - 1]) && Fresh(f, Exec(f, w, run[..|run| - 1]), run[|run| - 1]))
  }

  /** If `a` writes an entry, scanning can read it back. */
  predicate WritesStorable(f: Form, w: World, a: Act) {
    Writes(w, a) ==> Storable(f, EntryOf(f, w, a))
  }

  predicate AllStorable(f: Form, w: World, run: seq<Act>) {
    run == [] ||
    (AllStorable(f, w, run[..|run| - 1]) && WritesStorable(f, Exec(f, w, run[..|run| - 1]), run[|run| - 1]))
  }

  predicate Remembers(es: seq<Entry>, l: Handle) {
    l.lastSeq <= |es| && l.lastHash == Head(es[..l.lastSeq])
  }

  /** While the file is clean, what a handle remembers is an entry of the file. */
  ghost predicate HandlesInv(f: Form, w: World) {
    Verifies(f, Scanned(w.content)) ==>
      forall id :: id in w.handles ==> Remembers(Entries(f, Scanned(w.content)).value, w.handles[id])
  }

  /* ---------- lines that were not written to their end ---------- */

  predicate Begins(f: Form, p: string, e: Entry) { p != "" && p <= f.enc(e) }

  ghost predicate Piece(f: Form, p: string) { exists e :: Begins(f, p, e) }

  function Glue(ps: seq<string>): string { if ps == [] then "" else Glue(ps[..|ps| - 1]) + ps[|ps| - 1] }

  /** Beginnings of lines, run together. */
  ghost predicate Glued(f: Form, s: string, ps: seq<string>) { s == Glue(ps) && forall p :: p in ps ==> Piece(f, p) }

  ghost predicate Unfinished(f: Form, s: string) { exists ps :: Glued(f, s, ps) }

  /** A property of JSON objects: no part of one reads as an entry, and neither do beginnings
      of several that are run together. */
  ghost predicate Whole(f: Form) {
    forall s, ps :: Glued(f, s, ps) && ps != [] ==>
      !Blank(s) && (f.dec(s).Some? ==> |ps| == 1 && forall e :: Begins(f, s, e) ==> s == f.enc(e))
  }

  lemma UnfinishedGrows(f: Form, t: string, e: Entry, p: string)
    requires Whole(f) && Unfinished(f, t) && Begins(f, p, e)
    ensures Unfinished(f, t + p) && t + p != ""
    ensures !Blank(t + p)
    ensures t != "" || p != f.enc(e) ==> f.dec(t + p).None?
  {
    var ps :| Glued(f, t, ps);
    assert (ps + [p])[..|ps|] == ps;
    assert Piece(f, p);
    assert Glued(f, t + p, ps + [p]);
    if ps == [] {
      assert t + p == p;
    }
  }

  lemma OpenRemembers(f: Form, lines: seq<string>)
    requires Verifies(f, lines)
    ensures Remembers(Entries(f, lines).value, HandleAt(f, lines))
  {
    var es := Entries(f, lines).value;
    assert es[..|es|] == es;
    assert es != [] ==> LinkedAt(f, es, |es| - 1);
  }

  /** A handle opened on a clean file has seen all of it. */
  lemma FreshHandle(f: Form, lines: seq<string>)
    requires Verifies(f, lines)
    ensures HandleAt(f, lines).lastSeq == CountEntries(lines)
  {
    var es := Entries(f, lines).value;
    CountOfClean(f, lines);
    assert es != [] ==> LinkedAt(f, es, |es| - 1);
  }

  /** Appending through a handle that remembers an entry of a clean file keeps it clean
      exactly when that entry is the last one. */
  lemma AppendThrough(f: Form, lines: seq<string>, l: Handle, e: Entry)
    requires Verifies(f, lines) && Remembers(Entries(f, lines).value, l)
    requires e == NextEntry(f, l, e.ts, e.event, e.detail) && Storable(f, e)
    ensures Verifies(f, lines + [f.enc(e)]) <==> l.lastSeq == CountEntries(lines)
    ensures Verifies(f, lines + [f.enc(e)]) ==> Entries(f, lines + [f.enc(e)]).value == Entries(f, lines).value + [e]
  {
    var es := Entries(f, lines).value;
    CountOfClean(f, lines);
    VerifiesGrows(f, lines, f.enc(e));
    assert es[..|es|] == es;
    assert EntryHash(f, e) == e.entryHash;
  }

  lemma RemembersGrows(es: seq<Entry>, e: Entry, l: Handle)
    requires Remembers(es, l)
    ensures Remembers(es + [e], l)
  {
    assert (es + [e])[..l.lastSeq] == es[..l.lastSeq];
  }

  /** What an append does to the lines that are scanned: it lengthens the last one if that
      was not ended, and is a line of its own otherwise. */
  lemma ScannedAfter(c: Content, line: string, outcome: WriteOutcome)
    requires line != "" && !NothingWritten(outcome)
    ensures Kept(line, outcome) != "" && Kept(line, outcome) <= line
    ensures Scanned(After(c, line, outcome)) == c.lines + [c.tail + Kept(line, outcome)]
    ensures c.tail == "" ==> Scanned(After(c, line, outcome)) == c.lines + [Kept(line, outcome)]
  {
    assert c.tail == "" ==> c.tail + Kept(line, outcome) == Kept(line, outcome);
  }

  /** An append of a whole line to a clean file that ends with a newline. */
  lemma AppendStep(f: Form, w: World, a: Act)
    requires HandlesInv(f, w) && Verifies(f, w.content.lines) && w.content.tail == ""
    requires Writes(w, a) && WritesStorable(f, w, a)
    requires Kept(f.enc(EntryOf(f, w, a)), a.outcome) == f.enc(EntryOf(f, w, a))
    ensures HandlesInv(f, Apply(f, w, a))
    ensures Verifies(f, Scanned(Apply(f, w, a).content)) <==> Fresh(f, w, a)
  {
    var l, lines := w.handles[a.id], w.content.lines;
    var e := EntryOf(f, w, a);
    var es := Entries(f, lines).value;
    AppendThrough(f, lines, l, e);
    var w' := Apply(f, w, a);
    ScannedAfter(w.content, f.enc(e), a.outcome);
    assert w'.content == After(w.content, f.enc(e), a.outcome);
    if Verifies(f, Scanned(w'.content)) {
      CountOfClean(f, lines);
      assert (es + [e])[..|es| + 1] == es + [e];
      forall id | id in w'.handles ensures Remembers(es + [e], w'.handles[id]) {
        if id != a.id || !a.outcome.Written? {
          RemembersGrows(es, e, w.handles[id]);
        }
      }
    }
  }

  /** An append of part of a line, or after a line that was not ended. */
  lemma AppendBreaks(f: Form, w: World, a: Act)
    requires Whole(f) && Unfinished(f, w.content.tail) && Writes(w, a) && WritesStorable(f, w, a)
    requires w.content.tail != "" || Kept(f.enc(EntryOf(f, w, a)), a.outcome) != f.enc(EntryOf(f, w, a))
    ensures !Verifies(f, Scanned(Apply(f, w, a).content))
  {
    var line := f.enc(EntryOf(f, w, a));
    ScannedAfter(w.content, line, a.outcome);
    UnfinishedGrows(f, w.content.tail, EntryOf(f, w, a), Kept(line, a.outcome));
    VerifiesGrows(f, w.content.lines, w.content.tail + Kept(line, a.outcome));
  }

  lemma StepUnfinished(f: Form, w: World, a: Act)
    requires Whole(f) && Unfinished(f, w.content.tail)
    ensures Unfinished(f, Apply(f, w, a).content.tail)
  {
    assert Glued(f, "", []);
    if Writes(w, a) && a.outcome.Torn? && f.enc(EntryOf(f, w, a)) != "" {
      UnfinishedGrows(f, w.content.tail, EntryOf(f, w, a), Kept(f.enc(EntryOf(f, w, a)), a.outcome));
    } else if a.AppendBy? && a.id in w.handles && a.outcome.Torn? {
      assert w.content.tail + "" == w.content.tail;
    }
  }

  lemma StepWrites(f: Form, w: World, a: Act)
    requires Whole(f) && Unfinished(f, w.content.tail) && HandlesInv(f, w) && Writes(w, a) && WritesStorable(f, w, a)
    ensures HandlesInv(f, Apply(f, w, a))
    ensures Verifies(f, Scanned(Apply(f, w, a).content)) <==> Verifies(f, Scanned(w.content)) && Fresh(f, w, a)
  {
    var line := f.enc(EntryOf(f, w, a));
    if w.content.tail != "" || Kept(line, a.outcome) != line {
      AppendBreaks(f, w, a);
    } else if Verifies(f, w.content.lines) {
      AppendStep(f, w, a);
    } else {
      ScannedAfter(w.content, line, a.outcome);
      assert Apply(f, w, a).content == After(w.content, line, a.outcome);
      VerifiesGrows(f, w.content.lines, line);
    }
  }

  lemma StepOpens(f: Form, w: World, a: Act)
    requires HandlesInv(f, w) && !Writes(w, a)
    ensures HandlesInv(f, Apply(f, w, a)) && Apply(f, w, a).content == w.content
  {
    if a.OpenAs? {
      if Verifies(f, Scanned(w.content)) {
        OpenRemembers(f, Scanned(w.content));
      }
    } else if a.id in w.handles {
      assert w.content.tail + "" == w.content.tail;
    }
  }

  lemma StepClean(f: Form, w: World, a: Act)
    requires Whole(f) && Unfinished(f, w.content.tail) && HandlesInv(f, w) && WritesStorable(f, w, a)
    ensures HandlesInv(f, Apply(f, w, a))
    ensures Verifies(f, Scanned(Apply(f, w, a).content)) <==> Verifies(f, Scanned(w.content)) && Fresh(f, w, a)
  {
    if Writes(w, a) {
      StepWrites(f, w, a);
    } else {
      StepOpens(f, w, a);
    }
  }

  lemma {:induction false} RunClean(f: Form, w: World, run: seq<Act>)
    requires w.handles == map[] && Whole(f) && Unfinished(f, w.content.tail) && AllStorable(f, w, run)
    ensures HandlesInv(f, Exec(f, w, run)) && Unfinished(f, Exec(f, w, run).content.tail)
    ensures Verifies(f, Scanned(Exec(f, w, run).content)) <==> Verifies(f, Scanned(w.content)) && AllFresh(f, w, run)
  {
    if run != [] {
      var before := Exec(f, w, run[..|run| - 1]);
      RunClean(f, w, run[..|run| - 1]);
      StepUnfinished(f, before, run[|run| - 1]);
      StepClean(f, before, run[|run| - 1]);
    }
  }

  /** For every interleaving of opens and appends through any number of handles, writes that
      fail part way included, the file verifies exactly when it did at the start and every
      append wrote a whole line, to a file that ended with a newline, from a handle that had
      seen the last entry. */
  lemma {:induction false} VerifiesIffAllFresh(f: Form, c: Content, run: seq<Act>)
    requires Whole(f) && Unfinished(f, c.tail) && AllStorable(f, World(c, map[]), run)
    ensures Verifies(f, Scanned(Exec(f, World(c, map[]), run).content)) <==>
            Verifies(f, Scanned(c)) && AllFresh(f, World(c, map[]), run)
  {
    RunClean(f, World(c, map[]), run);
  }

  /** Open never extends a broken file: nothing is ever added to it. */
  lemma {:induction false} BrokenFileIsNeverExtended(f: Form, c: Content, run: seq<Act>)
    requires !Verifies(f, Scanned(c))
    ensures Exec(f, World(c, map[]), run) == World(c, map[])
  {
    if run != [] {
      BrokenFileIsNeverExtended(f, c, run[..|run| - 1]);
    }
  }

  /** A handle whose Sync failed after its Write succeeded does not advance, although
      its entry is in the file: the file is still clean, and the handle's next append
      breaks it. */
  lemma SyncFailureMakesTheHandleStale(f: Form, w: World, id: nat, a: Act, b: Act)
    requires Whole(f) && HandlesInv(f, w) && Verifies(f, w.content.lines) && w.content.tail == ""
    requires id in w.handles && w.handles[id].lastSeq == CountEntries(w.content.lines)
    requires a.AppendBy? && a.id == id && a.outcome.SyncFailed? && Storable(f, EntryOf(f, w, a))
    requires b.AppendBy? && b.id == id && !NothingWritten(b.outcome) && Storable(f, EntryOf(f, w, b))
    ensures Verifies(f, Scanned(Apply(f, w, a).content))
    ensures !Verifies(f, Scanned(Apply(f, Apply(f, w, a), b).content))
  {
    assert Glued(f, "", []);
    StepClean(f, w, a);
    var synced := Apply(f, w, a);
    assert synced.content.lines == w.content.lines + [w.content.tail + f.enc(EntryOf(f, w, a))];
    VerifiesGrows(f, w.content.lines, w.content.tail + f.enc(EntryOf(f, w, a)));
    assert w.content.tail + f.enc(EntryOf(f, w, a)) == f.enc(EntryOf(f, w, a));
    assert EntryOf(f, synced, b) == EntryOf(f, w, b);
    StepClean(f, synced, b);
  }

  /** A write that fails part way through a good append: the file can be opened afterwards
      exactly if nothing of the line was written, or all of it but the newline. Once
      anything of it is there, the next append breaks the file through whatever handle it
      comes, one opened after the failure included, although it answers as if all was well. */
  lemma {:induction false} TornLineBreaksTheNext(f: Form, w: World, a: Act, between: seq<Act>, b: Act)
    requires Whole(f) && HandlesInv(f, w) && Verifies(f, w.content.lines) && w.content.tail == ""
    requires Writes(w, a) && a.outcome.Torn? && WritesStorable(f, w, a)
    requires w.handles[a.id].lastSeq == CountEntries(w.content.lines)
    requires forall o :: o in between ==> o.OpenAs?
    ensures var torn := Apply(f, w, a);
            Verifies(f, Scanned(torn.content)) <==> a.outcome.kept >= |f.enc(EntryOf(f, w, a))|
    ensures var now := Exec(f, Apply(f, w, a), between);
            Writes(now, b) && WritesStorable(f, now, b) ==> !Verifies(f, Scanned(Apply(f, now, b).content))
  {
    assert Glued(f, "", []);
    StepClean(f, w, a);
    StepUnfinished(f, w, a);
    var torn := Apply(f, w, a);
    ScannedAfter(w.content, f.enc(EntryOf(f, w, a)), a.outcome);
    OpeningMovesNothing(f, torn, between);
    var now := Exec(f, torn, between);
    if Writes(now, b) && WritesStorable(f, now, b) {
      AppendBreaks(f, now, b);
    }
  }

  lemma {:induction false} OpeningMovesNothing(f: Form, w: World, run: seq<Act>)
    requires forall o :: o in run ==> o.OpenAs?
    ensures Exec(f, w, run).content == w.content
  {
    if run != [] {
      OpeningMovesNothing(f, w, run[..|run| - 1]);
      assert run[|run| - 1] in run;
    }
  }

  /* ---------- what the head of a log binds ---------- */

  /** The encodings of these entries, each without its own hash. */
  ghost function Contents(f: Form, es: seq<Entry>): set<string> {
    set i | 0 <= i < |es| :: f.enc(es[i].(entryHash := ""))
  }

  /** Encoding such an entry loses nothing. */
  ghost predicate Faithful(f: Form, es: seq<Entry>) {
    forall i :: 0 <= i < |es| ==> f.dec(f.enc(es[i].(entryHash := ""))) == Some(es[i].(entryHash := ""))
  }

  /** Between the entries of two logs, entry_hash tells contents apart. */
  ghost predicate HashTells(f: Form, a: seq<Entry>, b: seq<Entry>) {
    forall i, j :: 0 <= i < |a| && 0 <= j < |b| && EntryHash(f, a[i]) == EntryHash(f, b[j]) ==>
      a[i].(entryHash := "") == b[j].(entryHash := "")
  }

  lemma FaithfulHashTells(f: Form, a: seq<Entry>, b: seq<Entry>)
    requires Faithful(f, a) && Faithful(f, b)
    requires CollisionFree(f.h, Contents(f, a) + Contents(f, b))
    ensures HashTells(f, a, b)
  {
    forall i, j | 0 <= i < |a| && 0 <= j < |b| && EntryHash(f, a[i]) == EntryHash(f, b[j])
      ensures a[i].(entryHash := "") == b[j].(entryHash := "")
    {
      assert f.enc(a[i].(entryHash := "")) in Contents(f, a) && f.enc(b[j].(entryHash := "")) in Contents(f, b);
    }
  }

  lemma {:induction false} ChainsMeet(f: Form, a: seq<Entry>, b: seq<Entry>)
    requires Chain(f, a) && Chain(f, b) && HashTells(f, a, b)
    requires a != [] && b != [] && Head(a) == Head(b)
    ensures a == b
    decreases |a|
  {
    var a', b' := a[..|a| - 1], b[..|b| - 1];
    LastEntriesMeet(f, a, b);
    if a' != [] {
      TruncationVerifies(f, a, |a'|);
      TruncationVerifies(f, b, |b'|);
      assert HashTells(f, a', b');
      ChainsMeet(f, a', b');
    }
    assert a == a' + [a[|a| - 1]] && b == b' + [b[|b| - 1]];
  }

  /** Last entries with one hash are one entry, so the chains before them have one head too. */
  lemma LastEntriesMeet(f: Form, a: seq<Entry>, b: seq<Entry>)
    requires Chain(f, a) && Chain(f, b) && HashTells(f, a, b)
    requires a != [] && b != [] && Head(a) == Head(b)
    ensures |a| == |b| && a[|a| - 1] == b[|b| - 1]
    ensures |a| > 1 ==> Head(a[..|a| - 1]) == Head(b[..|b| - 1])
  {
    var i, j := |a| - 1, |b| - 1;
    assert LinkedAt(f, a, i) && LinkedAt(f, b, j);
    assert EntryHash(f, a[i]) == EntryHash(f, b[j]);
    assert a[i].(entryHash := "") == b[j].(entryHash := "");
  }

  /** Two clean non-empty logs with the same final entry_hash are equal entry by entry. */
  lemma HeadBindsLog(f: Form, a: seq<Entry>, b: seq<Entry>)
    requires Chain(f, a) && Chain(f, b) && a != [] && b != []
    requires Faithful(f, a) && Faithful(f, b)
    requires CollisionFree(f.h, Contents(f, a) + Contents(f, b))
    requires Head(a) == Head(b)
    ensures a == b
  {
    FaithfulHashTells(f, a, b);
    ChainsMeet(f, a, b);
  }

  /** So an edit, a removal or a reordering either breaks the chain or moves the head. */
  lemma TamperedLogMovesHead(f: Form, log: seq<Entry>, tampered: seq<Entry>)
    requires Chain(f, log) && log != [] && tampered != [] && tampered != log
    requires Faithful(f, log) && Faithful(f, tampered)
    requires CollisionFree(f.h, Contents(f, log) + Contents(f, tampered))
    ensures Chain(f, tampered) ==> Head(tampered) != Head(log)
  {
    if Chain(f, tampered) && Head(tampered) == Head(log) {
      HeadBindsLog(f, log, tampered);
    }
  }

  lemma HashTellsTwo(f: Form, e: Entry, g: Entry)
    requires Faithful(f, [e]) && Faithful(f, [g]) && CollisionFree(f.h, Contents(f, [e]) + Contents(f, [g]))
    ensures EntryHash(f, e) == EntryHash(f, g) ==> e.(entryHash := "") == g.(entryHash := "")
  {
    FaithfulHashTells(f, [e], [g]);
    assert [e][0] == e && [g][0] == g;
  }

  /** Editing the last line of a clean file, whatever field is edited, and leaving its hash
      alone is always found. */
  lemma EditIsFound(f: Form, lines: seq<string>, e: Entry, g: Entry)
    requires Verifies(f, lines + [f.enc(e)]) && g != e && g.entryHash == e.entryHash
    requires Storable(f, e) && Storable(f, g) && Faithful(f, [e]) && Faithful(f, [g])
    requires CollisionFree(f.h, Contents(f, [e]) + Contents(f, [g]))
    ensures !Verifies(f, lines + [f.enc(g)])
  {
    HashTellsTwo(f, e, g);
    VerifiesGrows(f, lines, f.enc(e));
    VerifiesGrows(f, lines, f.enc(g));
  }

  /** What the chain cannot show: dropping entries from the end leaves a clean log. */
  lemma TruncationVerifies(f: Form, es: seq<Entry>, k: nat)
    requires Chain(f, es) && k <= |es|
    ensures Chain(f, es[..k])
  {
    forall i | 0 <= i < k ensures LinkedAt(f, es[..k], i) {
      assert LinkedAt(f, es, i);
      assert es[..k][..i] == es[..i];
    }
  }
}
