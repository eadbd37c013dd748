/**
 * Properties of the control-file interpreter: what each command may do to
 * the session and the trace, and what a whole run guarantees.
 */
module CreateVeosFacts {
  import opened JavaText
  import opened FilePaths
  import opened ControlLine
  import opened Builder
  import opened CreateVeos

  function CommandOf(tokens: seq<string>): Command
    requires |tokens| >= 1
  {
    Classify(Keyword(tokens[0]))
  }

  // ---------------------------------------------------------------------
  // Lines
  // ---------------------------------------------------------------------

  /** Empty lines and lines of tabs only do nothing at all. */
  lemma BlankLinesDoNothing(env: Env, s: Session, n: nat, line: string)
    requires AllTabs(line)
    ensures ProcessLine(env, s, n, line) == NoChange(s)
  {
    BlankLineIffAllTabs(line);
  }

  /**
   * The command keyword ignores ASCII case: tokens that differ only in the
   * case of their letters have the same keyword, which is its own
   * lower-case form.
   */
  lemma KeywordIgnoresCase(a: string, b: string)
    requires |a| == |b| && forall k :: 0 <= k < |a| ==> LowerChar(a[k]) == LowerChar(b[k])
    ensures Keyword(a) == Keyword(b)
    ensures Keyword(LowerCase(a)) == Keyword(a)
  {
    assert LowerCase(a) == LowerCase(b);
    assert LowerCase(LowerCase(a)) == LowerCase(a);
  }

  /** Blank chars before and after a token do not change its keyword. */
  lemma KeywordTrimsBlanks(b: string, t: string, e: string)
    requires AllBlank(b) && AllBlank(e)
    ensures Keyword(b + t + e) == Keyword(t)
  {
    LowerCaseKeepsBlanks(b, t, e);
    TrimDropsBlankEnds(b, LowerCase(t), e);
  }

  /** Nothing after the first `end` line matters: the input may as well stop there. */
  lemma {:induction false} EndLineCutsInput(env: Env, s: Session, trace: seq<Issued>, lines: seq<string>, i: nat)
    requires i < |lines| && IsEndLine(lines[i])
    ensures RunLines(env, s, trace, lines) == RunLines(env, s, trace, lines[..i])
    decreases i
  {
    if i == 0 {
      assert lines[..i] == [];
    } else {
      assert lines[..i][0] == lines[0];
      if !IsEndLine(lines[0]) {
        var r := ProcessLine(env, s, |trace|, lines[0]);
        assert lines[..i][1..] == lines[1..][..i - 1];
        RunLinesUnfold(env, s, trace, lines);
        RunLinesUnfold(env, s, trace, lines[..i]);
        if r.outcome == Continue {
          EndLineCutsInput(env, r.session, trace + r.calls, lines[1..], i - 1);
        }
      }
    }
  }

  /** One turn of the loop on a line before any `end` line. */
  lemma RunLinesUnfold(env: Env, s: Session, trace: seq<Issued>, lines: seq<string>)
    requires |lines| > 0 && !IsEndLine(lines[0])
    ensures var r := ProcessLine(env, s, |trace|, lines[0]);
            RunLines(env, s, trace, lines)
              == if r.outcome != Continue then RunResult(r.session, trace + r.calls, r.outcome)
                 else RunLines(env, r.session, trace + r.calls, lines[1..])
  {
  }

  // ---------------------------------------------------------------------
  // Commands that do nothing, or only fail
  // ---------------------------------------------------------------------

  /** `!` comments and unknown commands change nothing and call nothing. */
  lemma CommentsAndUnknownCommandsDoNothing(env: Env, s: Session, n: nat, tokens: seq<string>)
    requires |tokens| >= 1 && CommandOf(tokens) in {Comment, Unknown}
    ensures Step(env, s, n, tokens) == NoChange(s)
  {
  }

  /** Once the current VEO has failed, the commands that act on it are skipped entirely. */
  lemma VeoFailedSkipsVeoCommands(env: Env, s: Session, n: nat, tokens: seq<string>)
    requires |tokens| >= 1 && IsVeoCommand(CommandOf(tokens))
    requires s.state == VeoFailed
    ensures Step(env, s, n, tokens) == NoChange(s)
  {
    StepVeoCommand(env, s, n, tokens);
  }

  /** Before any VEO is in progress, a VEO command only marks the state failed. */
  lemma VeoCommandWithoutVeoOnlyFails(env: Env, s: Session, n: nat, tokens: seq<string>)
    requires |tokens| >= 1 && IsVeoCommand(CommandOf(tokens))
    requires s.state != VeoFailed && !s.veo
    ensures Step(env, s, n, tokens) == StepResult(s.(state := VeoFailed), [], Continue)
  {
    StepVeoCommand(env, s, n, tokens);
  }

  // ---------------------------------------------------------------------
  // Configuration
  // ---------------------------------------------------------------------

  /**
   * HASH and PFX succeed only in the preamble and with enough arguments
   * (2 and 3 tokens); otherwise they throw without any effect.
   */
  lemma ConfigurationOnlyInPreamble(env: Env, s: Session, n: nat, tokens: seq<string>)
    requires |tokens| >= 1 && CommandOf(tokens) in {Hash, Pfx}
    ensures var r := Step(env, s, n, tokens);
            var needed := if CommandOf(tokens) == Hash then 2 else 3;
            r.calls == []
            && (r.outcome == Continue <==> s.state == Preamble && |tokens| >= needed)
            && (r.outcome != Continue ==> r == StepResult(s, [], Throw))
  {
  }

  /**
   * Any earlier failure ends the preamble: after a VEO command before the
   * first BV, a HASH is fatal.
   */
  lemma EarlyFailureEndsPreamble(env: Env, s: Session, n: nat, first: seq<string>, hash: seq<string>)
    requires |first| >= 1 && IsVeoCommand(CommandOf(first)) && s.state == Preamble && !s.veo
    requires |hash| >= 1 && CommandOf(hash) == Hash
    ensures Step(env, Step(env, s, n, first).session, n, hash).outcome == Throw
  {
    VeoCommandWithoutVeoOnlyFails(env, s, n, first);
  }

  /** After the preamble the signers and the hash algorithm never change, and the preamble never comes back. */
  lemma ConfigurationFrozenAfterPreamble(env: Env, s: Session, n: nat, tokens: seq<string>)
    requires |tokens| >= 1 && s.state != Preamble
    ensures var r := Step(env, s, n, tokens);
            r.session.signers == s.signers && r.session.hashAlg == s.hashAlg && r.session.state != Preamble
  {
    var c := CommandOf(tokens);
    if c in {Hash, Pfx} {
      StepConfiguration(env, s, n, tokens);
    } else if c == Bv {
      StepBv(env, s, n, tokens);
    } else if c == VeoShorthand {
      StepShorthand(env, s, n, tokens);
    } else if c in {Comment, Unknown} {
      CommentsAndUnknownCommandsDoNothing(env, s, n, tokens);
    } else {
      StepVeoCommand(env, s, n, tokens);
    }
  }

  /** A HASH in the preamble sets the algorithm later VEOs are created and signed with. */
  lemma HashSetsAlgorithm(env: Env, s: Session, n: nat, tokens: seq<string>, name: seq<string>)
    requires |tokens| >= 2 && CommandOf(tokens) == Hash && s.state == Preamble
    requires |name| >= 2 && CommandOf(name) == Bv && |s.signers| > 0 && !s.veo
    ensures var h := Step(env, s, n, tokens).session;
            var r := Step(env, h, n, name);
            |r.calls| > 0 && r.calls[0].call == Create(name[1], tokens[1])
  {
    StepConfiguration(env, s, n, tokens);
    var h := Step(env, s, n, tokens).session;
    StepBv(env, h, n, name);
  }

  /** A PFX line adds exactly the signer whose file resolves and loads, at the end of the list. */
  lemma PfxAddsSigner(env: Env, s: Session, n: nat, tokens: seq<string>)
    requires |tokens| >= 3 && CommandOf(tokens) == Pfx && s.state == Preamble
    ensures var r := Step(env, s, n, tokens);
            var p := RealFile(tokens[1], env.baseDir, env.realPath);
            if p.Some? && env.pfxLoads(p.value, tokens[2])
            then r == StepResult(s.(signers := s.signers + [Signer(p.value, tokens[2])]), [], Continue)
            else r == StepResult(s.(state := VeoFailed), [], Continue)
  {
  }

  // ---------------------------------------------------------------------
  // Starting a VEO
  // ---------------------------------------------------------------------

  /** BV and VEO with no signer are fatal before any call. */
  lemma NoSignerIsFatal(env: Env, s: Session, n: nat, tokens: seq<string>)
    requires |tokens| >= 1 && CommandOf(tokens) in {Bv, VeoShorthand} && |s.signers| == 0
    ensures Step(env, s, n, tokens) == StepResult(s, [], Throw)
  {
  }

  /**
   * Finishing the VEO in progress: when every call returns, the trace is
   * `finishFiles`, one `sign` per signer in list order, `finalise(false)`;
   * otherwise it is a prefix of that ending with the call that threw,
   * followed by `abandon`.
   */
  lemma FinishCurrentCalls(env: Env, s: Session, n: nat)
    requires s.veo
    ensures var f := FinishCurrent(env, s, n);
            var fc := FinishCalls(s.signers, s.hashAlg);
            if AllSucceed(env.reply, n, FinishPlan(s))
            then Calls(f.calls) == fc && AllOk(f.calls) && f.outcome == Continue
            else exists k :: 1 <= k <= |fc| && Calls(f.calls) == fc[..k] + [Abandon] && f.calls[k - 1].reply != Ok
  {
    var fc := FinishCalls(s.signers, s.hashAlg);
    var run := Perform(env.reply, n, FinishPlan(s));
    FinishRun(env.reply, n, s);
    var f := FinishCurrent(env, s, n);
    if run.failure.None? {
      assert f == StepResult(s.(veo := false), run.issued, Continue);
    } else {
      var k := |run.issued|;
      var e := run.failure.value;
      assert f == StepResult(s.(state := VeoFailed, veo := false), run.issued + [Issued(Abandon, Ok)],
                             if e == Fatal then Halt else Continue);
      CallsAppend(run.issued, [Issued(Abandon, Ok)]);
      assert Calls(f.calls) == fc[..k] + [Abandon];
      assert f.calls[k - 1] == run.issued[k - 1];
    }
  }

  /** The finishing block alone: all its calls when it completes, else a prefix ending in the call that threw. */
  lemma FinishRun(reply: ReplyOracle, n: nat, s: Session)
    ensures var run := Perform(reply, n, FinishPlan(s));
            var fc := FinishCalls(s.signers, s.hashAlg);
            (run.failure.None? <==> AllSucceed(reply, n, FinishPlan(s)))
            && (run.failure.None? ==> Calls(run.issued) == fc && AllOk(run.issued))
            && (run.failure.Some? ==>
                  1 <= |run.issued| <= |fc| && Calls(run.issued) == fc[..|run.issued|]
                  && run.issued[|run.issued| - 1].reply != Ok)
  {
    var fc := FinishCalls(s.signers, s.hashAlg);
    assert FinishPlan(s) == AsCalls(fc);
    PerformCallsOnly(reply, n, fc);
  }

  /** BV and VEO finish the VEO in progress before anything else. */
  lemma StartFinishesCurrentFirst(env: Env, s: Session, n: nat, tokens: seq<string>)
    requires |tokens| >= 1 && CommandOf(tokens) in {Bv, VeoShorthand} && |s.signers| > 0
    ensures var f := FinishCurrent(env, s, n);
            var r := Step(env, s, n, tokens);
            |f.calls| <= |r.calls| && r.calls[..|f.calls|] == f.calls
            && (f.outcome == Halt ==> r == f)
  {
    var f := FinishCurrent(env, s, n);
    var r := Step(env, s, n, tokens);
    if CommandOf(tokens) == Bv {
      StepBv(env, s, n, tokens);
    } else {
      StepShorthand(env, s, n, tokens);
    }
    if f.outcome == Continue {
      assert r.calls[..|f.calls|] == f.calls;
    }
  }

  /** After a recoverable failure to finish the old VEO, BV still creates the new one. */
  lemma BvStartsAfterRecoverableFinishFailure(env: Env, s: Session, n: nat, tokens: seq<string>)
    requires |tokens| >= 2 && CommandOf(tokens) == Bv && |s.signers| > 0
    requires FinishCurrent(env, s, n).outcome == Continue
    ensures var f := FinishCurrent(env, s, n);
            var r := Step(env, s, n, tokens);
            |r.calls| > |f.calls| && r.calls[|f.calls|].call == Create(tokens[1], s.hashAlg)
  {
  }

  /** After a recoverable failure to finish the old VEO, the VEO shorthand still creates the new one when it can use templates. */
  lemma ShorthandStartsAfterRecoverableFinishFailure(env: Env, s: Session, n: nat, tokens: seq<string>)
    requires |tokens| >= 2 && CommandOf(tokens) == VeoShorthand && |s.signers| > 0 && env.templates
    requires FinishCurrent(env, s, n).outcome == Continue
    ensures var f := FinishCurrent(env, s, n);
            var r := Step(env, s, n, tokens);
            |r.calls| > |f.calls| && r.calls[|f.calls|].call == Create(tokens[1], s.hashAlg)
  {
    StepShorthand(env, s, n, tokens);
  }

  /** The VEO shorthand with no template directory, or without a name, fails with no call and no VEO started. */
  lemma ShorthandNeedsTemplatesAndName(env: Env, s: Session, n: nat, tokens: seq<string>)
    requires |tokens| >= 1 && CommandOf(tokens) == VeoShorthand && |s.signers| > 0 && !s.veo
    requires !env.templates || |tokens| < 2
    ensures Step(env, s, n, tokens) == StepResult(s.(state := VeoFailed), [], Continue)
  {
    StepShorthand(env, s, n, tokens);
  }

  /** BV and the VEO shorthand are the only commands that start a VEO or set VEO_STARTED. */
  lemma OnlyBvAndVeoStart(env: Env, s: Session, n: nat, tokens: seq<string>)
    requires |tokens| >= 1
    ensures var r := Step(env, s, n, tokens);
            (r.session.veo && !s.veo) || (r.session.state == VeoStarted && s.state != VeoStarted)
            ==> CommandOf(tokens) in {Bv, VeoShorthand}
  {
    var c := CommandOf(tokens);
    if c in {Hash, Pfx} {
      StepConfiguration(env, s, n, tokens);
    } else if c in {Comment, Unknown} {
      CommentsAndUnknownCommandsDoNothing(env, s, n, tokens);
    } else if IsVeoCommand(c) {
      StepVeoCommand(env, s, n, tokens);
    }
  }

  /** A successful BV leaves a VEO in progress in VEO_STARTED; a failing one leaves none. */
  lemma BvOutcome(env: Env, s: Session, n: nat, tokens: seq<string>)
    requires |tokens| >= 1 && CommandOf(tokens) == Bv && |s.signers| > 0
    ensures var r := Step(env, s, n, tokens);
            r.outcome != Throw && r.outcome != Crash && (r.session.veo <==> r.session.state == VeoStarted)
            && (r.session.veo ==> |tokens| >= 2)
  {
  }

  /** With a builder that never throws, the creation block opens the VEO after `create` and `addVEOReadme`. */
  lemma CreationNeverThrowing(env: Env, s: Session, n: nat, name: string)
    requires !s.veo
    requires forall m: nat, c: BuilderCall :: env.reply(m, c) == Ok
    ensures var c := Creation(env, s, n, name);
            c.session == s.(veo := true) && c.outcome == Continue
            && Calls(c.calls) == [Create(name, s.hashAlg), AddReadme]
  {
    var plan := AsCalls(CreateCalls(name, s.hashAlg));
    PerformNeverThrowing(env.reply, n, plan);
    CallsOfAsCalls(CreateCalls(name, s.hashAlg));
  }

  /** The shorthand with a name but no label or no template indexes past the tokens after creating its VEO. */
  lemma ShortShorthandCrashes(env: Env, s: Session, n: nat, tokens: seq<string>)
    requires |tokens| >= 1 && CommandOf(tokens) == VeoShorthand
    requires |s.signers| > 0 && !s.veo && env.templates && 2 <= |tokens| < 4
    requires forall m: nat, c: BuilderCall :: env.reply(m, c) == Ok
    ensures Step(env, s, n, tokens).outcome == Crash
  {
    StepShorthand(env, s, n, tokens);
    ShorthandWithoutVeo(env, s, n, tokens);
    CreationNeverThrowing(env, s, n, tokens[1]);
    var c := Creation(env, s, n, tokens[1]);
    var fill := ShorthandFill(env, c.session, n + |c.calls|, tokens);
    assert ShorthandStart(env, s, n, tokens) == Then(c, fill);
    if |tokens| == 3 {
      AttemptNeverThrowing(env, c.session, n + |c.calls|, [Call(AddInformationObject(tokens[2], 0))]);
    }
  }

  // ---------------------------------------------------------------------
  // Commands on the VEO in progress
  // ---------------------------------------------------------------------

  /** MP and MPC without a template directory fail the VEO but keep it, to be finished later. */
  lemma MissingTemplatesKeepVeo(env: Env, s: Session, n: nat, tokens: seq<string>)
    requires |tokens| >= 1 && CommandOf(tokens) in {Mp, Mpc}
    requires s.state != VeoFailed && s.veo && !env.templates
    ensures Step(env, s, n, tokens) == StepResult(s.(state := VeoFailed), [], Continue)
  {
    StepVeoCommand(env, s, n, tokens);
    assert Step(env, s, n, tokens) == TemplateCommand(env, s, n, tokens, CommandOf(tokens) == Mpc);
  }

  /**
   * A block of the one builder call `c`: the call, then `abandon` exactly
   * when it threw, the VEO kept exactly when it returned, and a `VEOFatal`
   * returns from `buildVEOs`.
   */
  predicate OneCall(env: Env, s: Session, n: nat, r: StepResult, c: BuilderCall) {
    Calls(r.calls) == [c] + (if r.session.veo then [] else [Abandon])
    && (r.session.veo <==> env.reply(n, c) == Ok)
    && (r.outcome == Halt <==> env.reply(n, c) == Fatal)
  }

  lemma SingleCallAttempt(env: Env, s: Session, n: nat, c: BuilderCall)
    requires s.veo
    ensures OneCall(env, s, n, Attempt(env, s, n, [Call(c)]), c)
  {
    PerformSingle(env.reply, n, c);
  }

  /** A local operation that returns normally does not change a block. */
  lemma AttemptSkipsLocalOk(env: Env, s: Session, n: nat, plan: seq<Action>)
    requires s.veo
    ensures Attempt(env, s, n, [Local(Ok)] + plan) == Attempt(env, s, n, plan)
  {
    var p := [Local(Ok)] + plan;
    assert p[0] == Local(Ok) && p[1..] == plan;
    assert Perform(env.reply, n, p) == Perform(env.reply, n, plan);
  }

  /**
   * AC: without a directory the VEO fails and is abandoned. Otherwise the
   * directories are registered in order, each by its real path, until one
   * cannot be resolved or a call throws; the VEO is kept only when every
   * directory was resolved and registered.
   */
  lemma AcRule(env: Env, s: Session, n: nat, tokens: seq<string>)
    requires |tokens| >= 1 && CommandOf(tokens) == Ac && s.state != VeoFailed && s.veo
    ensures var r := Step(env, s, n, tokens);
            if |tokens| < 2 then r == FailAndAbandon(s) else RegisterOutcome(env, tokens[1..], r)
  {
    StepOnVeo(env, s, n, tokens);
    assert Step(env, s, n, tokens) == AcCommand(env, s, n, tokens);
    if |tokens| >= 2 {
      RegisterAttempt(env, s, n, tokens[1..]);
    }
  }

  /**
   * The directories registered: the calls other than a final `abandon`
   * register the real paths of the first directories, in order; the VEO is
   * kept only when all were registered.
   */
  predicate RegisterOutcome(env: Env, dirs: seq<string>, r: StepResult) {
    var made := if r.session.veo then |r.calls| else |r.calls| - 1;
    0 <= made <= |dirs|
    && (forall i :: 0 <= i < made ==>
          RealFile(dirs[i], env.baseDir, env.realPath).Some?
          && r.calls[i].call == RegisterContentDirectory(RealFile(dirs[i], env.baseDir, env.realPath).value))
    && (r.session.veo ==> made == |dirs|)
  }

  lemma RegisterAttempt(env: Env, s: Session, n: nat, dirs: seq<string>)
    requires s.veo
    ensures RegisterOutcome(env, dirs, Attempt(env, s, n, RegisterPlan(env, dirs)))
  {
    var plan := RegisterPlan(env, dirs);
    PerformLeadingCalls(env.reply, n, plan);
    var run := Perform(env.reply, n, plan);
    var r := Attempt(env, s, n, plan);
    assert r.calls == run.issued + (if run.failure.None? then [] else [Issued(Abandon, Ok)]);
  }

  /**
   * MP and MPC: without a template directory the VEO fails but is kept;
   * without a template name it fails and is abandoned; a template that
   * cannot be found abandons it with no package call; otherwise one
   * `addMetadataPackage` (MP) or `continueMetadataPackage` (MPC) with the
   * template and the whole line.
   */
  lemma TemplateRule(env: Env, s: Session, n: nat, tokens: seq<string>)
    requires |tokens| >= 1 && CommandOf(tokens) in {Mp, Mpc} && s.state != VeoFailed && s.veo
    ensures var r := Step(env, s, n, tokens);
            if !env.templates then r == Failed(s)
            else if |tokens| < 2 then r == FailAndAbandon(s)
            else TemplateOutcome(env, s, n, r, tokens[1],
                                 if CommandOf(tokens) == Mpc then ContinueMetadataPackage(tokens[1], tokens)
                                 else AddMetadataPackage(tokens[1], tokens))
  {
    StepOnVeo(env, s, n, tokens);
    assert Step(env, s, n, tokens) == TemplateCommand(env, s, n, tokens, CommandOf(tokens) == Mpc);
    if env.templates && |tokens| >= 2 {
      TemplateAttempt(env, s, n, tokens[1],
                      if CommandOf(tokens) == Mpc then ContinueMetadataPackage(tokens[1], tokens)
                      else AddMetadataPackage(tokens[1], tokens));
    }
  }

  /** A package call after `findTemplate(name)`: a template not found abandons the VEO with no call. */
  predicate TemplateOutcome(env: Env, s: Session, n: nat, r: StepResult, name: string, call: BuilderCall) {
    var found := env.findTemplate(name);
    if found != Ok then
      Calls(r.calls) == [Abandon] && r.session == s.(state := VeoFailed, veo := false)
      && (r.outcome == Halt <==> found == Fatal)
    else OneCall(env, s, n, r, call)
  }

  lemma TemplateAttempt(env: Env, s: Session, n: nat, name: string, call: BuilderCall)
    requires s.veo
    ensures TemplateOutcome(env, s, n, Attempt(env, s, n, [Local(env.findTemplate(name)), Call(call)]), name, call)
  {
    var found := env.findTemplate(name);
    var plan := [Local(found), Call(call)];
    if found == Ok {
      AttemptSkipsLocalOk(env, s, n, [Call(call)]);
      assert plan == [Local(Ok)] + [Call(call)];
      SingleCallAttempt(env, s, n, call);
    } else {
      assert Perform(env.reply, n, plan) == Run([], Some(found));
    }
  }

  /** XML-MP: without a semantic id the VEO fails and is abandoned; otherwise one `startXMLMetadataPackage`. */
  lemma XmlMpRule(env: Env, s: Session, n: nat, tokens: seq<string>)
    requires |tokens| >= 1 && CommandOf(tokens) == XmlMp && s.state != VeoFailed && s.veo
    ensures var r := Step(env, s, n, tokens);
            if |tokens| < 2 then r == FailAndAbandon(s)
            else OneCall(env, s, n, r, StartXmlMetadataPackage(tokens[1]))
  {
    StepOnVeo(env, s, n, tokens);
    if |tokens| >= 2 {
      SingleCallAttempt(env, s, n, StartXmlMetadataPackage(tokens[1]));
    }
  }

  /** An RDF package call on a resource: a malformed URL throws before it, otherwise it is made alone. */
  predicate RdfOutcome(env: Env, s: Session, n: nat, r: StepResult, semanticId: string, namespaces: Option<string>, resource: string) {
    if !env.validUrl(resource) then r == StepResult(s, [], Throw)
    else OneCall(env, s, n, r, StartRdfMetadataPackage(semanticId, namespaces, resource))
  }

  /**
   * RDF-MP: without a semantic id and a resource the VEO fails and is
   * abandoned; otherwise one `startRDFMetadataPackage` with the semantic
   * id, the namespace definitions when given, and the resource URL.
   */
  lemma RdfMpRule(env: Env, s: Session, n: nat, tokens: seq<string>)
    requires |tokens| >= 1 && CommandOf(tokens) == RdfMp && s.state != VeoFailed && s.veo
    ensures var r := Step(env, s, n, tokens);
            if |tokens| < 3 then r == FailAndAbandon(s)
            else RdfOutcome(env, s, n, r, tokens[1], Arg(tokens, 3), tokens[2])
  {
    StepOnVeo(env, s, n, tokens);
    if |tokens| >= 3 && env.validUrl(tokens[2]) {
      SingleCallAttempt(env, s, n, StartRdfMetadataPackage(tokens[1], Arg(tokens, 3), tokens[2]));
    }
  }

  /** AGLS-MP: an RDF package with the AGLS semantic id and namespaces on the resource `tokens[1]`. */
  lemma AglsMpRule(env: Env, s: Session, n: nat, tokens: seq<string>)
    requires |tokens| >= 1 && CommandOf(tokens) == AglsMp && s.state != VeoFailed && s.veo
    ensures var r := Step(env, s, n, tokens);
            if |tokens| < 2 then r == FailAndAbandon(s)
            else RdfOutcome(env, s, n, r, AglsSemanticId, Some(AglsNamespaces), tokens[1])
  {
    StepOnVeo(env, s, n, tokens);
    if |tokens| >= 2 && env.validUrl(tokens[1]) {
      SingleCallAttempt(env, s, n, StartRdfMetadataPackage(AglsSemanticId, Some(AglsNamespaces), tokens[1]));
    }
  }

  /** ANZS5478-MP: an RDF package with the ANZS 5478 semantic id and namespaces on the resource `tokens[1]`. */
  lemma Anzs5478MpRule(env: Env, s: Session, n: nat, tokens: seq<string>)
    requires |tokens| >= 1 && CommandOf(tokens) == Anzs5478Mp && s.state != VeoFailed && s.veo
    ensures var r := Step(env, s, n, tokens);
            if |tokens| < 2 then r == FailAndAbandon(s)
            else RdfOutcome(env, s, n, r, Anzs5478SemanticId, Some(Anzs5478Namespaces), tokens[1])
  {
    StepOnVeo(env, s, n, tokens);
    if |tokens| >= 2 && env.validUrl(tokens[1]) {
      SingleCallAttempt(env, s, n, StartRdfMetadataPackage(Anzs5478SemanticId, Some(Anzs5478Namespaces), tokens[1]));
    }
  }

  /** ME: without a tag the VEO fails and is abandoned; otherwise one simple element, value `tokens[2]` and attributes `tokens[3]` when present. */
  lemma MeRule(env: Env, s: Session, n: nat, tokens: seq<string>)
    requires |tokens| >= 1 && CommandOf(tokens) == Me && s.state != VeoFailed && s.veo
    ensures var r := Step(env, s, n, tokens);
            if |tokens| < 2 then r == FailAndAbandon(s)
            else OneCall(env, s, n, r, AddSimpleElement(tokens[1], Arg(tokens, 3), Arg(tokens, 2)))
  {
    StepOnVeo(env, s, n, tokens);
    if |tokens| >= 2 {
      SingleCallAttempt(env, s, n, AddSimpleElement(tokens[1], Arg(tokens, 3), Arg(tokens, 2)));
    }
  }

  /** SME: without a tag the VEO fails and is abandoned; otherwise one complex element started, attributes `tokens[2]` when present. */
  lemma SmeRule(env: Env, s: Session, n: nat, tokens: seq<string>)
    requires |tokens| >= 1 && CommandOf(tokens) == Sme && s.state != VeoFailed && s.veo
    ensures var r := Step(env, s, n, tokens);
            if |tokens| < 2 then r == FailAndAbandon(s)
            else OneCall(env, s, n, r, StartComplexElement(tokens[1], Arg(tokens, 2)))
  {
    StepOnVeo(env, s, n, tokens);
    if |tokens| >= 2 {
      SingleCallAttempt(env, s, n, StartComplexElement(tokens[1], Arg(tokens, 2)));
    }
  }

  /** EME: without a tag the VEO fails and is abandoned; otherwise one complex element ended. */
  lemma EmeRule(env: Env, s: Session, n: nat, tokens: seq<string>)
    requires |tokens| >= 1 && CommandOf(tokens) == Eme && s.state != VeoFailed && s.veo
    ensures var r := Step(env, s, n, tokens);
            if |tokens| < 2 then r == FailAndAbandon(s)
            else OneCall(env, s, n, r, EndComplexElement(tokens[1]))
  {
    StepOnVeo(env, s, n, tokens);
    if |tokens| >= 2 {
      SingleCallAttempt(env, s, n, EndComplexElement(tokens[1]));
    }
  }

  /**
   * RDF-MP, AGLS-MP and ANZS5478-MP with a malformed resource URL end the
   * run with a `VEOFatal` before any call is made.
   */
  lemma InvalidUrlIsFatal(env: Env, s: Session, n: nat, tokens: seq<string>)
    requires |tokens| >= 1 && CommandOf(tokens) in {RdfMp, AglsMp, Anzs5478Mp} && s.state != VeoFailed && s.veo
    requires |tokens| >= (if CommandOf(tokens) == RdfMp then 3 else 2)
    requires !env.validUrl(if CommandOf(tokens) == RdfMp then tokens[2] else tokens[1])
    ensures Step(env, s, n, tokens) == StepResult(s, [], Throw)
  {
    StepOnVeo(env, s, n, tokens);
  }

  /** A command on the VEO in progress, not failed, goes to its own function. */
  lemma StepOnVeo(env: Env, s: Session, n: nat, tokens: seq<string>)
    requires |tokens| >= 1 && IsVeoCommand(CommandOf(tokens)) && s.state != VeoFailed && s.veo
    ensures Step(env, s, n, tokens) == VeoCommandStep(env, s, n, CommandOf(tokens), tokens)
  {
    var c := CommandOf(tokens);
    assert c != Comment && c != Unknown && c != Hash && c != Pfx && c != Bv && c != VeoShorthand;
  }

  /**
   * IO: without a label, or with a depth that does not parse as an int or
   * is negative, the VEO fails and is abandoned; otherwise exactly one
   * `addInformationObject(trimmed label, depth)` is made.
   */
  lemma IoDepthRule(env: Env, s: Session, n: nat, tokens: seq<string>)
    requires |tokens| >= 1 && CommandOf(tokens) == Io && s.state != VeoFailed && s.veo
    ensures var r := Step(env, s, n, tokens);
            if |tokens| < 2 || IoDepth(tokens).None? then r == FailAndAbandon(s)
            else Calls(r.calls)
                   == [AddInformationObject(Trim(tokens[1]), IoDepth(tokens).value)]
                      + (if r.session.veo then [] else [Abandon])
  {
    StepOnVeo(env, s, n, tokens);
    if |tokens| >= 2 && IoDepth(tokens).Some? {
      SingleCallAttempt(env, s, n, AddInformationObject(Trim(tokens[1]), IoDepth(tokens).value));
    }
  }

  /** A depth written by `Integer.toString` is read back as the same depth. */
  lemma IoDepthRoundTrip(tokens: seq<string>, d: nat)
    requires |tokens| == 3 && tokens[2] == ShowInt(d) && d <= IntMax
    ensures IoDepth(tokens) == Some(d)
  {
    ParseShowRoundTrip(d);
  }

  lemma {:induction false} CallsOfCallThenAsCalls(c: BuilderCall, cs: seq<BuilderCall>)
    ensures CallsOf([Call(c)] + AsCalls(cs)) == [c] + cs
  {
    CallsOfAppend([Call(c)], AsCalls(cs));
    CallsOfAsCalls(cs);
    assert [Call(c)][1..] == [];
  }

  /**
   * IP: `tokens[1]` is the label exactly when the probe finds no regular
   * file; a label needs a file after it. When every call returns, the trace
   * is one `addInformationPiece` and one `addContentFile` per remaining
   * token, in order.
   */
  lemma IpLabelRule(env: Env, s: Session, n: nat, tokens: seq<string>)
    requires |tokens| >= 2 && CommandOf(tokens) == Ip && s.state != VeoFailed && s.veo
    ensures var r := Step(env, s, n, tokens);
            var isFile := env.isContentFile(n, tokens[1]);
            if !isFile && |tokens| < 3 then r == FailAndAbandon(s)
            else
              var pieceLabel := if isFile then None else Some(tokens[1]);
              var files := if isFile then tokens[1..] else tokens[2..];
              |r.calls| > 0 && r.calls[0].call == AddInformationPiece(pieceLabel)
              && (r.session.veo ==> Calls(r.calls) == [AddInformationPiece(pieceLabel)] + ContentFileCalls(files))
  {
    StepOnVeo(env, s, n, tokens);
    var isFile := env.isContentFile(n, tokens[1]);
    if isFile || |tokens| >= 3 {
      var pieceLabel := if isFile then None else Some(tokens[1]);
      var files := if isFile then tokens[1..] else tokens[2..];
      var plan := [Call(AddInformationPiece(pieceLabel))] + AsCalls(ContentFileCalls(files));
      PerformIssuesPrefix(env.reply, n, plan);
      PerformCompleteIssuesAll(env.reply, n, plan);
      CallsOfCallThenAsCalls(AddInformationPiece(pieceLabel), ContentFileCalls(files));
      assert plan[0] == Call(AddInformationPiece(pieceLabel));
    }
  }

  /**
   * E: with at least five tokens, in VEO_STARTED, and a description before
   * the first `$$`, one event is added whose descriptions and errors are
   * the tokens from index 4 on with the `$$` tokens left out, split at the
   * first; otherwise the VEO fails and is abandoned.
   */
  lemma EventSplitRule(env: Env, s: Session, n: nat, tokens: seq<string>)
    requires |tokens| >= 1 && CommandOf(tokens) == Ev && s.state != VeoFailed && s.veo
    ensures var r := Step(env, s, n, tokens);
            if |tokens| < 5 || s.state != VeoStarted || FirstSeparator(tokens[4..], IsEventSeparator) == 0
            then r == FailAndAbandon(s)
            else
              var rest := tokens[4..];
              var e := Calls(r.calls)[0];
              e.AddEvent? && e.date == tokens[1] && e.event == tokens[2] && e.initiator == tokens[3]
              && e.descriptions == rest[..FirstSeparator(rest, IsEventSeparator)]
              && e.descriptions + e.errors == WithoutSeparators(rest, IsEventSeparator)
  {
    StepOnVeo(env, s, n, tokens);
    if |tokens| >= 5 && s.state == VeoStarted && FirstSeparator(tokens[4..], IsEventSeparator) > 0 {
      var rest := tokens[4..];
      var ds := rest[..FirstSeparator(rest, IsEventSeparator)];
      var es := AfterSeparator(rest, IsEventSeparator);
      SplitLosesOnlySeparators(rest, IsEventSeparator);
      SingleCallAttempt(env, s, n, AddEvent(tokens[1], tokens[2], tokens[3], ds, es));
    }
  }

  /** The calls of the shorthand's plan after its IO: the package, the pieces, the event. */
  lemma ShorthandPlanCalls(env: Env, tokens: seq<string>)
    requires |tokens| >= 4
    ensures CallsOf(ShorthandPlan(env, tokens))
         == [AddMetadataPackage(tokens[3], tokens)]
            + CallsOf(FilePieces(AfterSeparator(tokens, IsFileSeparator)))
            + [CreationEvent(env)]
  {
    var pieces := FilePieces(AfterSeparator(tokens, IsFileSeparator));
    var head := [Local(env.findTemplate(tokens[3])), Call(AddMetadataPackage(tokens[3], tokens))];
    var tail := [Call(CreationEvent(env))];
    CallsOfAppend(head + pieces, tail);
    CallsOfAppend(head, pieces);
    assert head[1..][1..] == [];
    assert tail[1..] == [];
  }

  /** With the template found, every local step of the shorthand's plan succeeds. */
  lemma ShorthandPlanLocalsSucceed(env: Env, tokens: seq<string>)
    requires |tokens| >= 4 && env.findTemplate(tokens[3]) == Ok
    ensures var plan := ShorthandPlan(env, tokens);
            forall i :: 0 <= i < |plan| && plan[i].Local? ==> plan[i].reply == Ok
  {
    var plan := ShorthandPlan(env, tokens);
    var pieces := FilePieces(AfterSeparator(tokens, IsFileSeparator));
    OnlyHeadLocal(plan, Local(env.findTemplate(tokens[3])), Call(AddMetadataPackage(tokens[3], tokens)),
                  pieces, Call(CreationEvent(env)));
  }

  /** In a plan of the shape `[a, b] + mid + [c]` whose `b`, `mid` and `c` are calls, every step after `a` is a call. */
  lemma OnlyHeadLocal(plan: seq<Action>, a: Action, b: Action, mid: seq<Action>, c: Action)
    requires plan == [a, b] + mid + [c] && b.Call? && c.Call?
    requires forall k :: 0 <= k < |mid| ==> mid[k].Call?
    ensures plan[0] == a && forall i :: 1 <= i < |plan| ==> plan[i].Call?
  {
    forall i | 1 <= i < |plan|
      ensures plan[i].Call?
    {
      if i == 1 {
        assert plan[i] == b;
      } else if i < 2 + |mid| {
        assert plan[i] == mid[i - 2];
      } else {
        assert plan[i] == c;
      }
    }
  }

  /** The calls of two traces run one after the other. */
  lemma CallsAppend(a: seq<Issued>, b: seq<Issued>)
    ensures Calls(a + b) == Calls(a) + Calls(b)
  {
  }

  /** With a builder that never throws, a block on the VEO keeps the session and issues all its calls. */
  lemma AttemptNeverThrowing(env: Env, s: Session, n: nat, plan: seq<Action>)
    requires s.veo
    requires forall m: nat, c: BuilderCall :: env.reply(m, c) == Ok
    requires forall i :: 0 <= i < |plan| && plan[i].Local? ==> plan[i].reply == Ok
    ensures var r := Attempt(env, s, n, plan);
            r.session == s && r.outcome == Continue && Calls(r.calls) == CallsOf(plan)
  {
    PerformNeverThrowing(env.reply, n, plan);
  }

  /** The shorthand after creation, with a builder that never throws and a template that is found. */
  lemma ShorthandFillNeverThrowing(env: Env, s: Session, n: nat, tokens: seq<string>)
    requires s.veo && |tokens| >= 4 && env.findTemplate(tokens[3]) == Ok
    requires forall m: nat, c: BuilderCall :: env.reply(m, c) == Ok
    ensures var r := ShorthandFill(env, s, n, tokens);
            r.outcome == Continue && r.session == s.(state := VeoStarted)
            && Calls(r.calls) == [AddInformationObject(tokens[2], 0)] + CallsOf(ShorthandPlan(env, tokens))
  {
    AttemptNeverThrowing(env, s, n, [Call(AddInformationObject(tokens[2], 0))]);
    var io := Attempt(env, s, n, [Call(AddInformationObject(tokens[2], 0))]);
    assert CallsOf([Call(AddInformationObject(tokens[2], 0))]) == [AddInformationObject(tokens[2], 0)];
    var plan := ShorthandPlan(env, tokens);
    ShorthandPlanLocalsSucceed(env, tokens);
    AttemptNeverThrowing(env, s, n + |io.calls|, plan);
    var rest := Attempt(env, s, n + |io.calls|, plan);
    CallsAppend(io.calls, rest.calls);
  }

  /**
   * The VEO shorthand, when nothing throws: create, readme, one IO, the
   * metadata package, an anonymous IP and absolute content file per file
   * after the first `$$`, and the creation event; the new VEO is started.
   */
  lemma ShorthandCalls(env: Env, s: Session, n: nat, tokens: seq<string>)
    requires |tokens| >= 4 && CommandOf(tokens) == VeoShorthand
    requires |s.signers| > 0 && !s.veo && env.templates && env.findTemplate(tokens[3]) == Ok
    requires forall m: nat, c: BuilderCall :: env.reply(m, c) == Ok
    ensures var r := Step(env, s, n, tokens);
            r.outcome == Continue && r.session == s.(state := VeoStarted, veo := true)
            && Calls(r.calls)
               == [Create(tokens[1], s.hashAlg), AddReadme, AddInformationObject(tokens[2], 0),
                   AddMetadataPackage(tokens[3], tokens)]
                  + CallsOf(FilePieces(AfterSeparator(tokens, IsFileSeparator)))
                  + [CreationEvent(env)]
  {
    StepShorthand(env, s, n, tokens);
    ShorthandWithoutVeo(env, s, n, tokens);
    ShorthandStartNeverThrowing(env, s, n, tokens);
    ShorthandPlanCalls(env, tokens);
    var r := ShorthandStart(env, s, n, tokens);
    Regroup(Calls(r.calls), CallsOf(ShorthandPlan(env, tokens)),
            Create(tokens[1], s.hashAlg), AddReadme, AddInformationObject(tokens[2], 0),
            AddMetadataPackage(tokens[3], tokens), CallsOf(FilePieces(AfterSeparator(tokens, IsFileSeparator))),
            CreationEvent(env));
  }

  lemma Regroup<T>(x: seq<T>, rest: seq<T>, a: T, b: T, c: T, d: T, p: seq<T>, e: T)
    requires x == [a, b, c] + rest && rest == [d] + p + [e]
    ensures x == [a, b, c, d] + p + [e]
  {
    assert [a, b, c] + ([d] + p + [e]) == [a, b, c, d] + p + [e];
  }

  lemma StepShorthand(env: Env, s: Session, n: nat, tokens: seq<string>)
    requires |tokens| >= 1 && CommandOf(tokens) == VeoShorthand
    ensures Step(env, s, n, tokens) == VeoCommand(env, s, n, tokens)
  {
  }

  lemma StepBv(env: Env, s: Session, n: nat, tokens: seq<string>)
    requires |tokens| >= 1 && CommandOf(tokens) == Bv
    ensures Step(env, s, n, tokens) == BvCommand(env, s, n, tokens)
  {
  }

  lemma StepConfiguration(env: Env, s: Session, n: nat, tokens: seq<string>)
    requires |tokens| >= 1 && CommandOf(tokens) in {Hash, Pfx}
    ensures Step(env, s, n, tokens)
         == if CommandOf(tokens) == Hash then HashCommand(s, tokens) else PfxCommand(env, s, tokens)
  {
  }

  lemma StepVeoCommand(env: Env, s: Session, n: nat, tokens: seq<string>)
    requires |tokens| >= 1 && IsVeoCommand(CommandOf(tokens))
    ensures Step(env, s, n, tokens) == VeoCommandStep(env, s, n, CommandOf(tokens), tokens)
  {
    var c := CommandOf(tokens);
    assert c != Comment && c != Unknown && c != Hash && c != Pfx && c != Bv && c != VeoShorthand;
  }

  lemma ShorthandWithoutVeo(env: Env, s: Session, n: nat, tokens: seq<string>)
    requires |s.signers| > 0 && !s.veo
    ensures VeoCommand(env, s, n, tokens) == ShorthandStart(env, s, n, tokens)
  {
  }

  lemma ShorthandStartNeverThrowing(env: Env, s: Session, n: nat, tokens: seq<string>)
    requires |tokens| >= 4 && !s.veo && env.templates && env.findTemplate(tokens[3]) == Ok
    requires forall m: nat, c: BuilderCall :: env.reply(m, c) == Ok
    ensures var r := ShorthandStart(env, s, n, tokens);
            r.outcome == Continue && r.session == s.(state := VeoStarted, veo := true)
            && Calls(r.calls)
               == [Create(tokens[1], s.hashAlg), AddReadme, AddInformationObject(tokens[2], 0)]
                  + CallsOf(ShorthandPlan(env, tokens))
  {
    CreationNeverThrowing(env, s, n, tokens[1]);
    var c := Creation(env, s, n, tokens[1]);
    ShorthandFillNeverThrowing(env, c.session, n + |c.calls|, tokens);
    var f := ShorthandFill(env, c.session, n + |c.calls|, tokens);
    var r := ShorthandStart(env, s, n, tokens);
    assert r == Then(c, f);
    CallsAppend(c.calls, f.calls);
    assert Calls(r.calls) == Calls(c.calls) + Calls(f.calls);
    ConsThree(Create(tokens[1], s.hashAlg), AddReadme, AddInformationObject(tokens[2], 0),
              CallsOf(ShorthandPlan(env, tokens)));
  }

  lemma ConsThree<T>(a: T, b: T, c: T, x: seq<T>)
    ensures [a, b] + ([c] + x) == [a, b, c] + x
  {
  }

  // ---------------------------------------------------------------------
  // Invariants and the whole run
  // ---------------------------------------------------------------------

  /** A VEO is never in progress in the preamble, and VEO_STARTED always has one in progress. */
  predicate Consistent(s: Session) {
    (s.veo ==> s.state != Preamble) && (s.state == VeoStarted ==> s.veo)
  }

  lemma StepKeepsConsistent(env: Env, s: Session, n: nat, tokens: seq<string>)
    requires |tokens| >= 1 && Consistent(s)
    ensures var r := Step(env, s, n, tokens);
            r.outcome != Crash ==> Consistent(r.session)
  {
    var c := CommandOf(tokens);
    if c in {Hash, Pfx} {
      StepConfiguration(env, s, n, tokens);
    } else if c == Bv {
      StepBv(env, s, n, tokens);
      StartKeepsConsistent(s, BvCommand(env, s, n, tokens));
    } else if c == VeoShorthand {
      StepShorthand(env, s, n, tokens);
      StartKeepsConsistent(s, VeoCommand(env, s, n, tokens));
    } else if c in {Comment, Unknown} {
      CommentsAndUnknownCommandsDoNothing(env, s, n, tokens);
    } else {
      StepVeoCommand(env, s, n, tokens);
      VeoCommandKeepsConsistent(s, VeoCommandStep(env, s, n, c, tokens));
    }
  }

  /** BV and VEO leave a VEO open exactly in VEO_STARTED, and enter PREAMBLE only from it. */
  lemma StartKeepsConsistent(s: Session, r: StepResult)
    requires Consistent(s)
    requires r.outcome == Throw ==> r.session == s
    requires r.outcome != Crash && r.outcome != Throw ==> (r.session.veo <==> r.session.state == VeoStarted)
    requires r.session.state == Preamble ==> s.state == Preamble
    ensures r.outcome != Crash ==> Consistent(r.session)
  {
  }

  lemma VeoCommandKeepsConsistent(s: Session, r: StepResult)
    requires Consistent(s) && VeoCommandEffect(s, r)
    ensures Consistent(r.session)
  {
  }

  lemma {:induction false} RunLinesKeepsConsistent(env: Env, s: Session, trace: seq<Issued>, lines: seq<string>)
    requires Consistent(s)
    ensures var r := RunLines(env, s, trace, lines);
            r.outcome != Crash ==> Consistent(r.session)
    decreases |lines|
  {
    if |lines| > 0 && !IsEndLine(lines[0]) {
      var r := ProcessLine(env, s, |trace|, lines[0]);
      if !IsBlankLine(lines[0]) {
        StepKeepsConsistent(env, s, |trace|, Tokenise(lines[0]));
      }
      if r.outcome == Continue {
        RunLinesKeepsConsistent(env, r.session, trace + r.calls, lines[1..]);
      }
    }
  }

  /**
   * So the E command's own VEO_STARTED check never fails in a run: with a
   * VEO in progress and the state not failed, the state is VEO_STARTED.
   */
  lemma EventStateCheckIsRedundant(s: Session)
    requires Consistent(s) && s.veo && s.state != VeoFailed
    ensures s.state == VeoStarted
  {
  }

  /**
   * In the trace of any run, an abandoned VEO is never finalised (nor
   * abandoned twice): a new VEO is created in between.
   */
  lemma AbandonedVeoNeverFinalised(env: Env, hashAlg: string, signers: seq<Signer>, lines: seq<string>, i: nat, j: nat)
    requires var t := BuildVeos(env, hashAlg, signers, lines).trace;
             i < j < |t| && t[i].call == Abandon && (t[j].call.Finalise? || t[j].call.Abandon?)
    ensures !NoCreationBetween(BuildVeos(env, hashAlg, signers, lines).trace, i + 1, j)
  {
    AbandonedNeverFinalised(false, BuildVeos(env, hashAlg, signers, lines).trace, i, j);
  }

  /** A run that returned or threw from the loop does not finalise the VEO in progress. */
  lemma StoppedRunIsNotFinalised(env: Env, hashAlg: string, signers: seq<Signer>, lines: seq<string>)
    ensures var r := RunLines(env, Initial(hashAlg, signers), [], lines);
            r.outcome != Continue ==> BuildVeos(env, hashAlg, signers, lines) == r
  {
  }
}
