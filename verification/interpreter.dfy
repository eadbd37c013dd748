/**
 * `CreateVEOs.buildVEOs`: the control-file interpreter, as a pure step
 * function over a small session, folded over the lines of the control file
 * and followed by the end-of-stream finalisation. Every call made on the VEO
 * under construction is recorded in a trace, with the reply the oracle gave.
 */
module CreateVeos {
  import opened JavaText
  import opened FilePaths
  import opened ControlLine
  import opened Builder

  /** The `State` enum: no VEO started yet, a VEO being built, the current VEO failed. */
  datatype State = Preamble | VeoStarted | VeoFailed

  /**
   * The interpreter's state: the `state` field, the hash algorithm and the
   * signers (settable only in the preamble), and whether a VEO is under
   * construction (`veo != null`).
   */
  datatype Session = Session(state: State, hashAlg: string, signers: seq<Signer>, veo: bool)

  const DefaultHashAlg: string := "SHA-256"

  /** The session after construction: the command line may already have set signers and the hash algorithm. */
  function Initial(hashAlg: string, signers: seq<Signer>): (s: Session)
    ensures s.state == Preamble && !s.veo
  {
    Session(Preamble, hashAlg, signers, false)
  }

  /**
   * Everything outside the interpreter it depends on: the builder's replies,
   * whether a template directory was given and what looking up a template
   * does, `toRealPath`, whether a PFX file loads with a password, the IP
   * probe (`getActualSourcePath` then `Files.exists` and
   * `Files.isRegularFile`, indexed by the trace position at which it is
   * made), URL well-formedness, the text of `VERSDate.versDateTime(0)` and
   * the directory holding the control file.
   */
  datatype Env = Env(
    reply: ReplyOracle,
    templates: bool,
    findTemplate: string -> Reply,
    realPath: Path -> Option<Path>,
    pfxLoads: (Path, string) -> bool,
    isContentFile: (nat, string) -> bool,
    validUrl: string -> bool,
    epochDate: string,
    baseDir: Path)

  /**
   * How a step ends: carry on with the next line; return from `buildVEOs`
   * after a `VEOFatal` from the builder; throw a `VEOFatal` (also what an
   * `IOException` such as `MalformedURLException` turns into); or let an
   * unchecked `ArrayIndexOutOfBoundsException` escape.
   */
  datatype Outcome = Continue | Halt | Throw | Crash

  datatype StepResult = StepResult(session: Session, calls: seq<Issued>, outcome: Outcome)

  datatype Command =
    | Comment | Hash | Pfx | Bv | Ac | Io | Mp | XmlMp | RdfMp | AglsMp | Anzs5478Mp
    | Mpc | Me | Sme | Eme | Ip | Ev | VeoShorthand | Unknown

  /** The `switch` on `tokens[0].toLowerCase().trim()`. */
  function Classify(keyword: string): (c: Command)
    ensures c == Unknown <==> keyword !in KnownKeywords
  {
    match keyword
    case "!" => Comment
    case "hash" => Hash
    case "pfx" => Pfx
    case "bv" => Bv
    case "ac" => Ac
    case "io" => Io
    case "mp" => Mp
    case "xml-mp" => XmlMp
    case "rdf-mp" => RdfMp
    case "agls-mp" => AglsMp
    case "anzs5478-mp" => Anzs5478Mp
    case "mpc" => Mpc
    case "me" => Me
    case "sme" => Sme
    case "eme" => Eme
    case "ip" => Ip
    case "e" => Ev
    case "veo" => VeoShorthand
    case _ => Unknown
  }

  const KnownKeywords: set<string> :=
    {"!", "hash", "pfx", "bv", "ac", "io", "mp", "xml-mp", "rdf-mp", "agls-mp", "anzs5478-mp",
     "mpc", "me", "sme", "eme", "ip", "e", "veo"}

  /** The commands that act on the VEO under construction and are skipped once it has failed. */
  predicate IsVeoCommand(c: Command) {
    c in {Ac, Io, Mp, XmlMp, RdfMp, AglsMp, Anzs5478Mp, Mpc, Me, Sme, Eme, Ip, Ev}
  }

  const AglsSemanticId: string := "http://www.vic.gov.au/blog/wp-content/uploads/2013/11/AGLS-Victoria-2011-V4-Final-2011.pdf"
  const AglsNamespaces: string :=
    "xmlns:dcterms=\"http://purl.org/dc/terms/\"\r\n"
    + "    xmlns:aglsterms=\"http://www.agls.gov.au/agls/terms/\"\r\n"
    + "    xmlns:versterms=\"http://www.prov.vic.gov.au/vers/terms\""
  const Anzs5478SemanticId: string := "http://www.prov.vic.gov.au/vers/schema/ANZS5478"
  const Anzs5478Namespaces: string := "xmlns:anzs5478=\"http://www.prov.vic.gov.au/vers/ANZS5478\""

  // ---------------------------------------------------------------------
  // Building blocks shared by the commands
  // ---------------------------------------------------------------------

  function NoChange(s: Session): StepResult {
    StepResult(s, [], Continue)
  }

  /** `veoFailed(...)` alone: the state becomes VEO_FAILED, the VEO (if any) is kept. */
  function Failed(s: Session): (r: StepResult)
    ensures r.session.state == VeoFailed && r.session.veo == s.veo && r.calls == [] && r.outcome == Continue
  {
    StepResult(s.(state := VeoFailed), [], Continue)
  }

  /** `veoFailed(...); veo.abandon(debug); veo = null;` */
  function FailAndAbandon(s: Session): (r: StepResult)
    requires s.veo
    ensures r.session.state == VeoFailed && !r.session.veo && r.outcome == Continue
    ensures Calls(r.calls) == [Abandon]
  {
    StepResult(s.(state := VeoFailed, veo := false), [Issued(Abandon, Ok)], Continue)
  }

  /**
   * The `try { ... } catch (VEOError e)` around builder calls on the VEO in
   * progress: on an exception the VEO fails and is abandoned, and a
   * `VEOFatal` returns from `buildVEOs`.
   */
  function Attempt(env: Env, s: Session, n: nat, plan: seq<Action>): (r: StepResult)
    requires s.veo
    ensures r.outcome == Continue || r.outcome == Halt
    ensures r.session.hashAlg == s.hashAlg && r.session.signers == s.signers
    ensures r.session.veo <==> r.session == s
    ensures !r.session.veo ==> r.session.state == VeoFailed && |r.calls| > 0 && r.calls[|r.calls| - 1].call == Abandon
    ensures r.outcome == Halt ==> !r.session.veo
    ensures PlainPlan(plan) ==> Track(true, r.calls) == Some(r.session.veo)
  {
    var run := Perform(env.reply, n, plan);
    match run.failure
    case None =>
      PerformPlain(env.reply, n, plan);
      StepResult(s, run.issued, Continue)
    case Some(e) =>
      PerformPlain(env.reply, n, plan);
      TrackAppend(true, run.issued, [Issued(Abandon, Ok)]);
      StepResult(s.(state := VeoFailed, veo := false), run.issued + [Issued(Abandon, Ok)],
                 if e == Fatal then Halt else Continue)
  }

  function Arg(tokens: seq<string>, i: nat): (r: Option<string>)
    ensures r.Some? <==> i < |tokens|
    ensures r.Some? ==> r.value == tokens[i]
  {
    if i < |tokens| then Some(tokens[i]) else None
  }

  /**
   * What a command on the VEO in progress may do to the session: keep the
   * configuration, never start a VEO or move to another state than
   * VEO_FAILED, drop the VEO only in VEO_FAILED, throw only without
   * touching anything, and keep to the builder protocol.
   */
  predicate VeoCommandEffect(s: Session, r: StepResult) {
    r.outcome != Crash
    && r.session.hashAlg == s.hashAlg && r.session.signers == s.signers
    && (r.session.state == s.state || r.session.state == VeoFailed)
    && (r.session.veo ==> s.veo)
    && (s.veo && !r.session.veo ==> r.session.state == VeoFailed)
    && (r.outcome == Throw ==> r == StepResult(s, [], Throw))
    && Track(s.veo, r.calls) == Some(r.session.veo)
  }

  // ---------------------------------------------------------------------
  // HASH and PFX
  // ---------------------------------------------------------------------

  function HashCommand(s: Session, tokens: seq<string>): (r: StepResult)
    ensures r.calls == []
    ensures r.outcome == Continue <==> s.state == Preamble && |tokens| >= 2
    ensures r.outcome == Continue ==> r.session == s.(hashAlg := tokens[1])
    ensures r.outcome != Continue ==> r.outcome == Throw && r.session == s
  {
    if s.state != Preamble then StepResult(s, [], Throw)
    else if |tokens| < 2 then StepResult(s, [], Throw)
    else StepResult(s.(hashAlg := tokens[1]), [], Continue)
  }

  function PfxCommand(env: Env, s: Session, tokens: seq<string>): (r: StepResult)
    ensures r.calls == []
    ensures r.outcome == Continue <==> s.state == Preamble && |tokens| >= 3
    ensures r.outcome != Continue ==> r.outcome == Throw && r.session == s
    ensures r.outcome == Continue ==>
              r.session.hashAlg == s.hashAlg && r.session.veo == s.veo
              && (r.session.signers == s.signers
                  || (|r.session.signers| == |s.signers| + 1 && r.session.signers[..|s.signers|] == s.signers))
    ensures r.outcome == Continue && r.session.signers != s.signers ==>
              var u := r.session.signers[|s.signers|];
              r.session.state == Preamble && u.password == tokens[2]
              && RealFile(tokens[1], env.baseDir, env.realPath) == Some(u.pfxFile)
              && env.pfxLoads(u.pfxFile, tokens[2])
  {
    if s.state != Preamble then StepResult(s, [], Throw)
    else if |tokens| < 3 then StepResult(s, [], Throw)
    else match RealFile(tokens[1], env.baseDir, env.realPath)
      case None => Failed(s)
      case Some(p) =>
        if !env.pfxLoads(p, tokens[2]) then Failed(s)
        else StepResult(s.(signers := s.signers + [Signer(p, tokens[2])]), [], Continue)
  }

  // ---------------------------------------------------------------------
  // BV and VEO: finish the VEO in progress, then start a new one
  // ---------------------------------------------------------------------

  /** `a` followed by `b`: the calls of both, the session and outcome of `b`. */
  function Then(a: StepResult, b: StepResult): (r: StepResult)
    ensures r.calls == a.calls + b.calls && r.session == b.session && r.outcome == b.outcome
  {
    StepResult(b.session, a.calls + b.calls, b.outcome)
  }

  /** `veo.finishFiles(); sign(veo); veo.finalise(false);` */
  function FinishPlan(s: Session): (plan: seq<Action>)
    ensures CallsOf(plan) == FinishCalls(s.signers, s.hashAlg)
  {
    CallsOfAsCalls(FinishCalls(s.signers, s.hashAlg));
    AsCalls(FinishCalls(s.signers, s.hashAlg))
  }

  /**
   * The block at the head of BV and VEO (and after the last line): a VEO in
   * progress is finished; on an exception it is abandoned (and a `VEOFatal`
   * returns). Either way no VEO is in progress afterwards.
   */
  function FinishCurrent(env: Env, s: Session, n: nat): (r: StepResult)
    ensures r.outcome == Continue || r.outcome == Halt
    ensures !r.session.veo && r.session.hashAlg == s.hashAlg && r.session.signers == s.signers
    ensures !s.veo ==> r == NoChange(s)
    ensures r.outcome == Halt || r.session.state != s.state ==> r.session.state == VeoFailed
    ensures Track(s.veo, r.calls) == Some(false)
  {
    if !s.veo then NoChange(s)
    else
      var run := Perform(env.reply, n, FinishPlan(s));
      FinishingCloses(env.reply, n, s);
      match run.failure
      case None => StepResult(s.(veo := false), run.issued, Continue)
      case Some(e) =>
        StepResult(s.(state := VeoFailed, veo := false), run.issued + [Issued(Abandon, Ok)],
                   if e == Fatal then Halt else Continue)
  }

  /** The finishing block closes the VEO, or leaves it to the `abandon` that follows a failure. */
  lemma FinishingCloses(reply: ReplyOracle, n: nat, s: Session)
    ensures var run := Perform(reply, n, FinishPlan(s));
            (run.failure.None? ==> Track(true, run.issued) == Some(false))
            && (run.failure.Some? ==> Track(true, run.issued + [Issued(Abandon, Ok)]) == Some(false))
  {
    var run := Perform(reply, n, FinishPlan(s));
    assert FinishPlan(s) == AsCalls(FinishCalls(s.signers, s.hashAlg));
    FinishTrack(reply, n, s.signers, s.hashAlg);
    TrackAppend(true, run.issued, [Issued(Abandon, Ok)]);
  }

  /**
   * The creation block of BV and VEO, started with no VEO in progress. On
   * an exception the VEO fails, and it is abandoned only when its
   * constructor had returned (`veo != null`).
   */
  function Creation(env: Env, s: Session, n: nat, name: string): (r: StepResult)
    requires !s.veo
    ensures r.outcome == Continue || r.outcome == Halt
    ensures (r.session == s.(veo := true) && r.outcome == Continue) || r.session == s.(state := VeoFailed)
    ensures |r.calls| > 0 && r.calls[0].call == Create(name, s.hashAlg)
    ensures Track(false, r.calls) == Some(r.session.veo)
  {
    var run := Perform(env.reply, n, AsCalls(CreateCalls(name, s.hashAlg)));
    CreateTrack(env.reply, n, name, s.hashAlg);
    match run.failure
    case None => StepResult(s.(veo := true), run.issued, Continue)
    case Some(e) =>
      var created := run.issued[0].reply == Ok;
      TrackAppend(false, run.issued, [Issued(Abandon, Ok)]);
      StepResult(s.(state := VeoFailed), run.issued + (if created then [Issued(Abandon, Ok)] else []),
                 if e == Fatal then Halt else Continue)
  }

  /** BV once the old VEO is out of the way. */
  function BvStart(env: Env, s: Session, n: nat, tokens: seq<string>): (r: StepResult)
    requires !s.veo
    ensures r.outcome == Continue || r.outcome == Halt
    ensures r.session.hashAlg == s.hashAlg && r.session.signers == s.signers
    ensures r.session.veo <==> r.session.state == VeoStarted
    ensures Track(false, r.calls) == Some(r.session.veo)
    ensures r.session.state == Preamble ==> s.state == Preamble
    ensures |tokens| < 2 ==> r == Failed(s)
    ensures |tokens| >= 2 ==> |r.calls| > 0 && r.calls[0].call == Create(tokens[1], s.hashAlg)
  {
    if |tokens| < 2 then Failed(s)
    else
      var c := Creation(env, s, n, tokens[1]);
      if c.session.veo then c.(session := c.session.(state := VeoStarted)) else c
  }

  /**
   * BV: a `VEOFatal` without a signer; otherwise, when a VEO is in
   * progress, finish it first (a fatal failure there returns), then start
   * the new one.
   */
  function BvCommand(env: Env, s: Session, n: nat, tokens: seq<string>): (r: StepResult)
    ensures |s.signers| == 0 ==> r == StepResult(s, [], Throw)
    ensures r.outcome != Crash
    ensures r.session.hashAlg == s.hashAlg && r.session.signers == s.signers
    ensures r.outcome != Throw ==> (r.session.veo <==> r.session.state == VeoStarted)
    ensures Track(s.veo, r.calls) == Some(r.session.veo)
    ensures r.session.state == Preamble ==> s.state == Preamble
  {
    if |s.signers| == 0 then StepResult(s, [], Throw)
    else if !s.veo then BvStart(env, s, n, tokens)
    else
      var f := FinishCurrent(env, s, n);
      if f.outcome != Continue then f
      else
        var b := BvStart(env, f.session, n + |f.calls|, tokens);
        TrackAppend(s.veo, f.calls, b.calls);
        Then(f, b)
  }

  /** The anonymous IP and content file the VEO shorthand adds for each file named after `$$`. */
  function FilePieces(files: seq<string>): (plan: seq<Action>)
    ensures |plan| == 2 * |files| && forall k :: 0 <= k < |plan| ==> plan[k].Call?
    ensures forall i :: 0 <= i < |files| ==>
              plan[2 * i] == Call(AddInformationPiece(None)) && plan[2 * i + 1] == Call(AddAbsContentFile(files[i]))
  {
    seq(2 * |files|, k requires 0 <= k < 2 * |files| =>
      if k % 2 == 0 then Call(AddInformationPiece(None)) else Call(AddAbsContentFile(files[k / 2])))
  }

  /** The event the VEO shorthand records: dated `versDateTime(0)`. */
  function CreationEvent(env: Env): BuilderCall {
    AddEvent(env.epochDate, "VEO Created", "VEOCreate", ["No Description"], ["No Errors"])
  }

  /**
   * The rest of the VEO shorthand's creation block once `tokens[3]` exists:
   * the metadata package from template `tokens[3]`, one IP per file after
   * the first `$$`, and the creation event.
   */
  function ShorthandPlan(env: Env, tokens: seq<string>): (plan: seq<Action>)
    requires |tokens| >= 4
    ensures PlainPlan(plan)
  {
    [Local(env.findTemplate(tokens[3])), Call(AddMetadataPackage(tokens[3], tokens))]
    + FilePieces(AfterSeparator(tokens, IsFileSeparator))
    + [Call(CreationEvent(env))]
  }

  /**
   * The VEO shorthand once its VEO has been created: one anonymous IO
   * labelled `tokens[2]`, then the rest of the plan. With fewer than three
   * or four tokens `tokens[2]` or `tokens[3]` is out of bounds.
   */
  function ShorthandFill(env: Env, s: Session, n: nat, tokens: seq<string>): (r: StepResult)
    requires s.veo
    ensures r.session.hashAlg == s.hashAlg && r.session.signers == s.signers
    ensures r.outcome != Throw
    ensures r.outcome == Crash <==> r.session == s && |tokens| < 4
    ensures r.outcome != Crash ==> (r.session.veo <==> r.session.state == VeoStarted)
    ensures r.outcome != Crash && r.session.veo ==> r.session == s.(state := VeoStarted)
    ensures Track(true, r.calls) == Some(r.session.veo)
    ensures r.session.state == Preamble ==> s.state == Preamble
  {
    if |tokens| < 3 then StepResult(s, [], Crash)
    else
      var io := Attempt(env, s, n, [Call(AddInformationObject(tokens[2], 0))]);
      if !io.session.veo then io
      else if |tokens| < 4 then StepResult(s, io.calls, Crash)
      else
        var rest := Attempt(env, s, n + |io.calls|, ShorthandPlan(env, tokens));
        var done := if rest.session.veo then rest.(session := rest.session.(state := VeoStarted)) else rest;
        TrackAppend(true, io.calls, rest.calls);
        Then(io, done)
  }

  /** The VEO shorthand once the old VEO is out of the way. */
  function ShorthandStart(env: Env, s: Session, n: nat, tokens: seq<string>): (r: StepResult)
    requires !s.veo
    ensures r.session.hashAlg == s.hashAlg && r.session.signers == s.signers
    ensures r.outcome != Throw
    ensures r.outcome == Crash ==> 2 <= |tokens| < 4 && r.session == s.(veo := true)
    ensures r.outcome != Crash ==> (r.session.veo <==> r.session.state == VeoStarted)
    ensures Track(false, r.calls) == Some(r.session.veo)
    ensures r.session.state == Preamble ==> s.state == Preamble
    ensures !env.templates || |tokens| < 2 ==> r == Failed(s)
    ensures env.templates && |tokens| >= 2 ==> |r.calls| > 0 && r.calls[0].call == Create(tokens[1], s.hashAlg)
  {
    if !env.templates then Failed(s)
    else if |tokens| < 2 then Failed(s)
    else
      var c := Creation(env, s, n, tokens[1]);
      if !c.session.veo then c
      else
        var fill := ShorthandFill(env, c.session, n + |c.calls|, tokens);
        TrackAppend(false, c.calls, fill.calls);
        Then(c, fill)
  }

  /**
   * VEO: a `VEOFatal` without a signer; otherwise, when a VEO is in
   * progress, finish it first (a fatal failure there returns), then start
   * the new one.
   */
  function VeoCommand(env: Env, s: Session, n: nat, tokens: seq<string>): (r: StepResult)
    ensures |s.signers| == 0 ==> r == StepResult(s, [], Throw)
    ensures r.session.hashAlg == s.hashAlg && r.session.signers == s.signers
    ensures r.outcome != Crash && r.outcome != Throw ==> (r.session.veo <==> r.session.state == VeoStarted)
    ensures r.outcome == Crash ==> 2 <= |tokens| < 4 && r.session.veo
    ensures Track(s.veo, r.calls) == Some(r.session.veo)
    ensures r.session.state == Preamble ==> s.state == Preamble
  {
    if |s.signers| == 0 then StepResult(s, [], Throw)
    else if !s.veo then ShorthandStart(env, s, n, tokens)
    else
      var f := FinishCurrent(env, s, n);
      if f.outcome != Continue then f
      else
        var b := ShorthandStart(env, f.session, n + |f.calls|, tokens);
        TrackAppend(s.veo, f.calls, b.calls);
        Then(f, b)
  }

  // ---------------------------------------------------------------------
  // The commands that act on the VEO in progress
  // ---------------------------------------------------------------------

  function AcCommand(env: Env, s: Session, n: nat, tokens: seq<string>): (r: StepResult)
    requires s.veo
    ensures VeoCommandEffect(s, r)
  {
    if |tokens| < 2 then FailAndAbandon(s)
    else Attempt(env, s, n, RegisterPlan(env, tokens[1..]))
  }

  /** For each directory: `getRealFile(dir)` (a `VEOError` when it fails), then `registerContentDirectories`. */
  function RegisterPlan(env: Env, dirs: seq<string>): (plan: seq<Action>)
    ensures |plan| == |dirs| && PlainPlan(plan)
    ensures forall i :: 0 <= i < |dirs| ==>
              plan[i] == match RealFile(dirs[i], env.baseDir, env.realPath)
                         case None => Local(Err)
                         case Some(p) => Call(RegisterContentDirectory(p))
  {
    seq(|dirs|, i requires 0 <= i < |dirs| =>
      match RealFile(dirs[i], env.baseDir, env.realPath)
      case None => Local(Err)
      case Some(p) => Call(RegisterContentDirectory(p)))
  }

  /** The depth argument of IO: absent means 0; present, it must parse as an int that is not negative. */
  function IoDepth(tokens: seq<string>): (d: Option<nat>)
    ensures |tokens| <= 2 ==> d == Some(0)
    ensures |tokens| > 2 ==> (d.Some? <==> ParseInt(tokens[2]).Some? && ParseInt(tokens[2]).value >= 0)
    ensures |tokens| > 2 && d.Some? ==> d.value == ParseInt(tokens[2]).value
  {
    if |tokens| <= 2 then Some(0)
    else match ParseInt(tokens[2])
      case None => None
      case Some(v) => if v < 0 then None else Some(v)
  }

  function IoCommand(env: Env, s: Session, n: nat, tokens: seq<string>): (r: StepResult)
    requires s.veo
    ensures VeoCommandEffect(s, r)
  {
    if |tokens| < 2 then FailAndAbandon(s)
    else match IoDepth(tokens)
      case None => FailAndAbandon(s)
      case Some(d) => Attempt(env, s, n, [Call(AddInformationObject(Trim(tokens[1]), d))])
  }

  /** MP and MPC: without a template directory the VEO fails but is kept. */
  function TemplateCommand(env: Env, s: Session, n: nat, tokens: seq<string>, continuing: bool): (r: StepResult)
    requires s.veo
    ensures VeoCommandEffect(s, r)
  {
    if !env.templates then Failed(s)
    else if |tokens| < 2 then FailAndAbandon(s)
    else
      var call := if continuing then ContinueMetadataPackage(tokens[1], tokens)
                  else AddMetadataPackage(tokens[1], tokens);
      Attempt(env, s, n, [Local(env.findTemplate(tokens[1])), Call(call)])
  }

  function XmlMpCommand(env: Env, s: Session, n: nat, tokens: seq<string>): (r: StepResult)
    requires s.veo
    ensures VeoCommandEffect(s, r)
  {
    if |tokens| < 2 then FailAndAbandon(s)
    else Attempt(env, s, n, [Call(StartXmlMetadataPackage(tokens[1]))])
  }

  /**
   * The three RDF package commands. `new URL(resource)` is built before the
   * call; a malformed URL is an `IOException` that ends the run with a
   * `VEOFatal`.
   */
  function RdfCall(env: Env, s: Session, n: nat, semanticId: string, namespaces: Option<string>, resource: string): (r: StepResult)
    requires s.veo
    ensures VeoCommandEffect(s, r)
  {
    if !env.validUrl(resource) then StepResult(s, [], Throw)
    else Attempt(env, s, n, [Call(StartRdfMetadataPackage(semanticId, namespaces, resource))])
  }

  function RdfMpCommand(env: Env, s: Session, n: nat, tokens: seq<string>): (r: StepResult)
    requires s.veo
    ensures VeoCommandEffect(s, r)
  {
    if |tokens| < 3 then FailAndAbandon(s)
    else RdfCall(env, s, n, tokens[1], Arg(tokens, 3), tokens[2])
  }

  function AglsMpCommand(env: Env, s: Session, n: nat, tokens: seq<string>): (r: StepResult)
    requires s.veo
    ensures VeoCommandEffect(s, r)
  {
    if |tokens| < 2 then FailAndAbandon(s)
    else RdfCall(env, s, n, AglsSemanticId, Some(AglsNamespaces), tokens[1])
  }

  function Anzs5478MpCommand(env: Env, s: Session, n: nat, tokens: seq<string>): (r: StepResult)
    requires s.veo
    ensures VeoCommandEffect(s, r)
  {
    if |tokens| < 2 then FailAndAbandon(s)
    else RdfCall(env, s, n, Anzs5478SemanticId, Some(Anzs5478Namespaces), tokens[1])
  }

  function MeCommand(env: Env, s: Session, n: nat, tokens: seq<string>): (r: StepResult)
    requires s.veo
    ensures VeoCommandEffect(s, r)
  {
    if |tokens| < 2 then FailAndAbandon(s)
    else Attempt(env, s, n, [Call(AddSimpleElement(tokens[1], Arg(tokens, 3), Arg(tokens, 2)))])
  }

  function SmeCommand(env: Env, s: Session, n: nat, tokens: seq<string>): (r: StepResult)
    requires s.veo
    ensures VeoCommandEffect(s, r)
  {
    if |tokens| < 2 then FailAndAbandon(s)
    else Attempt(env, s, n, [Call(StartComplexElement(tokens[1], Arg(tokens, 2)))])
  }

  function EmeCommand(env: Env, s: Session, n: nat, tokens: seq<string>): (r: StepResult)
    requires s.veo
    ensures VeoCommandEffect(s, r)
  {
    if |tokens| < 2 then FailAndAbandon(s)
    else Attempt(env, s, n, [Call(EndComplexElement(tokens[1]))])
  }

  /** IP: `tokens[1]` is a label unless the probe finds it is an existing regular file. */
  function IpCommand(env: Env, s: Session, n: nat, tokens: seq<string>): (r: StepResult)
    requires s.veo
    ensures VeoCommandEffect(s, r)
  {
    if |tokens| < 2 then FailAndAbandon(s)
    else
      var isFile := env.isContentFile(n, tokens[1]);
      if !isFile && |tokens| < 3 then FailAndAbandon(s)
      else
        var pieceLabel := if isFile then None else Some(tokens[1]);
        var files := if isFile then tokens[1..] else tokens[2..];
        Attempt(env, s, n, [Call(AddInformationPiece(pieceLabel))] + AsCalls(ContentFileCalls(files)))
  }

  function ContentFileCalls(files: seq<string>): (r: seq<BuilderCall>)
    ensures |r| == |files| && forall i :: 0 <= i < |r| ==> r[i] == AddContentFile(files[i])
  {
    seq(|files|, i requires 0 <= i < |files| => AddContentFile(files[i]))
  }

  /** E: descriptions up to the first `$$` (blanks around it ignored) from `tokens[4]` on, errors after it. */
  function EventCommand(env: Env, s: Session, n: nat, tokens: seq<string>): (r: StepResult)
    requires s.veo
    ensures VeoCommandEffect(s, r)
  {
    if |tokens| < 5 then FailAndAbandon(s)
    else if s.state != VeoStarted then FailAndAbandon(s)
    else
      var rest := tokens[4..];
      var descriptions := rest[..FirstSeparator(rest, IsEventSeparator)];
      var errors := AfterSeparator(rest, IsEventSeparator);
      if |descriptions| == 0 then FailAndAbandon(s)
      else
        var plan := [Call(AddEvent(tokens[1], tokens[2], tokens[3], descriptions, errors))];
        assert PlainPlan(plan);
        Attempt(env, s, n, plan)
  }

  /** The VEO commands: skipped in VEO_FAILED, a failure before the first BV, otherwise the command. */
  function VeoCommandStep(env: Env, s: Session, n: nat, c: Command, tokens: seq<string>): (r: StepResult)
    requires IsVeoCommand(c)
    ensures VeoCommandEffect(s, r)
    ensures s.state == VeoFailed ==> r == NoChange(s)
  {
    if s.state == VeoFailed then NoChange(s)
    else if !s.veo then Failed(s)
    else match c
      case Ac => AcCommand(env, s, n, tokens)
      case Io => IoCommand(env, s, n, tokens)
      case Mp => TemplateCommand(env, s, n, tokens, false)
      case Mpc => TemplateCommand(env, s, n, tokens, true)
      case XmlMp => XmlMpCommand(env, s, n, tokens)
      case RdfMp => RdfMpCommand(env, s, n, tokens)
      case AglsMp => AglsMpCommand(env, s, n, tokens)
      case Anzs5478Mp => Anzs5478MpCommand(env, s, n, tokens)
      case Me => MeCommand(env, s, n, tokens)
      case Sme => SmeCommand(env, s, n, tokens)
      case Eme => EmeCommand(env, s, n, tokens)
      case Ip => IpCommand(env, s, n, tokens)
      case Ev => EventCommand(env, s, n, tokens)
  }

  // ---------------------------------------------------------------------
  // One line, the whole file, and the end of the stream
  // ---------------------------------------------------------------------

  /**
   * One command line (at least one token); `n` is the length of the trace
   * so far. Every step keeps to the builder protocol: it creates a VEO only
   * when none is open, makes every other call on an open VEO, and leaves a
   * VEO open exactly when the session says one is in progress.
   */
  function Step(env: Env, s: Session, n: nat, tokens: seq<string>): (r: StepResult)
    requires |tokens| >= 1
    ensures Track(s.veo, r.calls) == Some(r.session.veo)
  {
    var c := Classify(Keyword(tokens[0]));
    match c
    case Comment => NoChange(s)
    case Unknown => NoChange(s)
    case Hash => HashCommand(s, tokens)
    case Pfx => PfxCommand(env, s, tokens)
    case Bv => BvCommand(env, s, n, tokens)
    case VeoShorthand => VeoCommand(env, s, n, tokens)
    case _ => VeoCommandStep(env, s, n, c, tokens)
  }

  /** A line of the control file: blank lines are skipped, others tokenised and executed. */
  function ProcessLine(env: Env, s: Session, n: nat, line: string): (r: StepResult)
    ensures Track(s.veo, r.calls) == Some(r.session.veo)
    ensures IsBlankLine(line) ==> r == NoChange(s)
  {
    if IsBlankLine(line) then NoChange(s)
    else Step(env, s, n, Tokenise(line))
  }

  datatype RunResult = RunResult(session: Session, trace: seq<Issued>, outcome: Outcome)

  /**
   * The `while` loop: lines up to the first `end` line, until a step does
   * not continue. The trace only grows, and the protocol is kept.
   */
  function RunLines(env: Env, s: Session, trace: seq<Issued>, lines: seq<string>): (r: RunResult)
    ensures |trace| <= |r.trace| && r.trace[..|trace|] == trace
    ensures Track(false, trace) == Some(s.veo) ==> Track(false, r.trace) == Some(r.session.veo)
    decreases |lines|
  {
    if |lines| == 0 || IsEndLine(lines[0]) then RunResult(s, trace, Continue)
    else
      var r := ProcessLine(env, s, |trace|, lines[0]);
      TrackAppend(false, trace, r.calls);
      if r.outcome != Continue then RunResult(r.session, trace + r.calls, r.outcome)
      else
        var rest := RunLines(env, r.session, trace + r.calls, lines[1..]);
        assert rest.trace[..|trace|] == (trace + r.calls)[..|trace|];
        rest
  }

  /** After the loop: a VEO still in progress is finished, or abandoned if that fails; none is left open. */
  function EndOfStream(env: Env, r: RunResult): (e: RunResult)
    ensures e.outcome == r.outcome && !e.session.veo
    ensures |r.trace| <= |e.trace| && e.trace[..|r.trace|] == r.trace
    ensures Track(false, r.trace) == Some(r.session.veo) ==> Track(false, e.trace) == Some(false)
  {
    var f := FinishCurrent(env, r.session, |r.trace|);
    TrackAppend(false, r.trace, f.calls);
    RunResult(f.session, r.trace + f.calls, r.outcome)
  }

  /**
   * `buildVEOs`: the loop, then (unless it returned or threw) the
   * end-of-stream finalisation. The whole trace keeps to the protocol and,
   * when `buildVEOs` returns normally, leaves no VEO open.
   */
  function BuildVeos(env: Env, hashAlg: string, signers: seq<Signer>, lines: seq<string>): (r: RunResult)
    ensures Track(false, r.trace) == Some(r.session.veo)
    ensures r.outcome == Continue ==> !r.session.veo
  {
    var r := RunLines(env, Initial(hashAlg, signers), [], lines);
    if r.outcome != Continue then r else EndOfStream(env, r)
  }
}
