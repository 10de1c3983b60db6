/**
 The script a dump prints, as far as it sets session variables, and what goes into it. A statement is kept as the
 settings it makes; spelling is left out.
 */
module DumpScript {
  import opened Wrappers
  import opened Definer

  // ---------------------------------------------------------------------------------------------------------------
  // Scripts
  // ---------------------------------------------------------------------------------------------------------------

  datatype SysVar =
    | CharacterSetClient | CharacterSetResults | CollationConnection | SqlMode | TimeZone
    | UniqueChecks | ForeignKeyChecks | SqlNotes

  /** The user variables a script saves settings in. */
  datatype UserVar =
    | Old(of: SysVar)
    | SavedCsClient | SavedCsResults | SavedColConnection | SavedSqlMode | SavedTimeZone | SaveTimeZone

  datatype Action =
    | Save(user: UserVar, sys: SysVar)
    | Assign(sys: SysVar, value: string)
    | Restore(sys: SysVar, user: UserVar)
    | SetNames(charset: string)
    | Other(text: string)
    | Create(text: string)

  /** A line of the script: a client command that changes the delimiter, or a statement. */
  datatype Item =
    | Delimiter(text: string)
    | Statement(version: nat, actions: seq<Action>, ending: string)

  /** Which user variable saves which setting. */
  type Pairs = seq<(UserVar, SysVar)>

  const CS: Pairs := [(SavedCsClient, CharacterSetClient), (SavedCsResults, CharacterSetResults),
                      (SavedColConnection, CollationConnection)]
  const CLIENT: Pairs := [(SavedCsClient, CharacterSetClient)]
  const MODE: Pairs := [(SavedSqlMode, SqlMode)]
  const ZONE: Pairs := [(SavedTimeZone, TimeZone)]
  const EVENTS_ZONE: Pairs := [(SaveTimeZone, TimeZone)]

  // ---------------------------------------------------------------------------------------------------------------
  // What is dumped
  // ---------------------------------------------------------------------------------------------------------------

  /** Options that choose between forms of the script; `sqlMode` is the mode the header sets. */
  datatype Options = Options(logging: bool, setCharset: bool, charset: string, tzUtc: bool, noCreateInfo: bool,
                             sqlMode: string, drop: bool, dropTrigger: bool, oldTableFormat: bool, force: bool)

  /** A database being dumped; `charsets` gives the character set of each collation the client knows. */
  datatype Database = Database(name: string, collation: string, charsets: map<string, string>)

  /** The character sets an object was created under; old servers do not report them for routines and events. */
  datatype Charsets = Unreported | Reported(charset: string, collation: string, dbCollation: string)

  datatype Trigger = Trigger(name: string, sqlMode: string, create: string, charset: string, collation: string,
                             dbCollation: string)

  /** A routine; the server withholds the body of one whose text the user may not read. */
  datatype Routine = Routine(name: string, sqlMode: string, body: Option<string>, charsets: Charsets) {
    const create: string := if body.Some? then body.value else ""
  }

  datatype Event = Event(name: string, sqlMode: string, timeZone: string, create: string, charsets: Charsets)

  datatype Block =
    | Plain(version: nat, text: string)
    | Table(create: string)
    | StandIn(create: string)
    | View(charset: string, collation: string, create: string)
    | Triggers(triggers: seq<Trigger>)
    | Routines(routines: seq<Routine>)
    | Events(events: seq<Event>)

  /** A block and the database it belongs to; a dump may go over several. */
  datatype Part = Part(db: Database, block: Block)

  // ---------------------------------------------------------------------------------------------------------------
  // When printing a block fails
  // ---------------------------------------------------------------------------------------------------------------

  const QUERY_LENGTH := 1536

  /** The client knows the collations it has to name. */
  predicate Known(db: Database, required: string) {
    db.collation == required || (required in db.charsets && db.collation in db.charsets)
  }

  predicate CharsetsKnown(db: Database, c: Charsets) {
    c.Reported? ==> Known(db, c.dbCollation)
  }

  predicate TriggersOk(db: Database, ts: seq<Trigger>) {
    forall i :: 0 <= i < |ts| ==> Known(db, ts[i].dbCollation)
  }

  predicate RoutineOk(db: Database, r: Routine) {
    r.create != "" ==> CharsetsKnown(db, r.charsets)
  }

  predicate RoutinesOk(db: Database, rs: seq<Routine>) {
    forall i :: 0 <= i < |rs| ==> RoutineOk(db, rs[i])
  }

  /** The dump comes to a routine whose body is withheld before one that fails. */
  predicate RoutinesReported(db: Database, rs: seq<Routine>) {
    exists k :: 0 <= k < |rs| && rs[k].body.None? && forall j :: 0 <= j < k ==> RoutineOk(db, rs[j])
  }

  /** The event's text gets a delimiter. */
  predicate Delimitable(e: Event) {
    Choose(e.create, QUERY_LENGTH).Chosen?
  }

  predicate EventOk(db: Database, e: Event) {
    e.create != "" ==> Delimitable(e) && CharsetsKnown(db, e.charsets)
  }

  predicate EventsOk(db: Database, es: seq<Event>) {
    forall i :: 0 <= i < |es| ==> EventOk(db, es[i])
  }

  /** The first event with a body gets no delimiter. */
  predicate FailsAtOnce(es: seq<Event>) {
    exists k :: 0 <= k < |es| && es[k].create != "" && !Delimitable(es[k]) && forall j :: 0 <= j < k ==> es[j].create == ""
  }

  /** Printing the events leaves the usual delimiter in force: none fails, or one fails before any changed it. */
  predicate EventsSafe(db: Database, es: seq<Event>) {
    EventsOk(db, es) || FailsAtOnce(es)
  }

  predicate PartSafe(p: Part) {
    p.block.Events? ==> EventsSafe(p.db, p.block.events)
  }

  predicate AllSafe(ps: seq<Part>) {
    forall i :: 0 <= i < |ps| ==> PartSafe(ps[i])
  }

  /** The client knows the collation the database had, if it has to name it, and what was created under it is printed. */
  predicate Enterable(db: Database, c: Charsets) {
    c.Reported? ==> db.collation == c.dbCollation || c.dbCollation in db.charsets
  }

  function TriggerCharsets(t: Trigger): Charsets {
    Reported(t.charset, t.collation, t.dbCollation)
  }

  /** No routine is printed: none has a body, or the first that has one cannot be. */
  predicate RoutinesSilent(db: Database, rs: seq<Routine>) {
    forall k :: 0 <= k < |rs| && rs[k].create != "" && (forall j :: 0 <= j < k ==> rs[j].create == "")
      ==> !Enterable(db, rs[k].charsets)
  }

  /** The part of the block changes no delimiter. */
  predicate PartSilent(p: Part) {
    match p.block
    case Triggers(ts) => ts == [] || !Enterable(p.db, TriggerCharsets(ts[0]))
    case Routines(rs) => RoutinesSilent(p.db, rs)
    case Events(es) => es == [] || FailsAtOnce(es)
    case _ => true
  }

  /** Behind a block that leaves another delimiter in force none prints a DELIMITER line. */
  predicate SilentBehind(ps: seq<Part>) {
    forall i, j :: 0 <= i < j < |ps| && !PartSafe(ps[i]) ==> PartSilent(ps[j])
  }

  /** What goes wrong with the block is reported: triggers that fail, and bodies of routines that are withheld. */
  predicate PartReported(p: Part) {
    match p.block
    case Triggers(ts) => !TriggersOk(p.db, ts)
    case Routines(rs) => RoutinesReported(p.db, rs)
    case _ => false
  }

  predicate NoneReported(ps: seq<Part>) {
    forall i :: 0 <= i < |ps| ==> !PartReported(ps[i])
  }

  predicate PartOk(p: Part) {
    match p.block
    case Triggers(ts) => TriggersOk(p.db, ts)
    case Routines(rs) => RoutinesOk(p.db, rs)
    case Events(es) => EventsOk(p.db, es)
    case _ => true
  }

  /** No block fails. */
  predicate AllOk(ps: seq<Part>) {
    forall i :: 0 <= i < |ps| ==> PartOk(ps[i])
  }

  // ---------------------------------------------------------------------------------------------------------------
  // Texts
  // ---------------------------------------------------------------------------------------------------------------

  function CharsetOf(db: Database, collation: string): string {
    if collation in db.charsets then db.charsets[collation] else ""
  }

  function AlterDatabase(db: Database, collation: string): string {
    "ALTER DATABASE " + db.name + " CHARACTER SET " + CharsetOf(db, collation) + " COLLATE " + collation
  }

  /** A CREATE statement with its DEFINER clause covered, or as it is if it has none. */
  function CoveredText(w: Weights, s: string, before: string, after: string, keyword: string): string {
    match Clause(w, s, keyword)
    case None => s
    case Some((b, e)) => Covered(s, b, e, before, after)
  }

  function TriggerText(w: Weights, t: Trigger): string {
    CoveredText(w, t.create, "50017", "50003", " TRIGGER")
  }

  function EventText(w: Weights, e: Event): string {
    CoveredText(w, e.create, "50117", "50106", " EVENT")
  }
}
