/**
 * The calls `buildVEOs` makes on the VEO under construction (a `CreateVEO`,
 * whose internals are not part of this model), as an abstract trace. Every
 * call either returns (`Ok`) or throws a recoverable `VEOError` (`Err`) or a
 * `VEOFatal` (`Fatal`); which one is an oracle indexed by the call's
 * position in the whole run's trace, so any pattern of replies can occur.
 */
module Builder {
  import opened JavaText
  import opened FilePaths

  datatype Reply = Ok | Err | Fatal

  /** A `PFXUser`: the real path of its PFX file and the password. */
  datatype Signer = Signer(pfxFile: Path, password: string)

  datatype BuilderCall =
    | Create(veoName: string, hashAlg: string)                  // new CreateVEO(outputDir, name, hashAlg, debug)
    | AddReadme                                                 // addVEOReadme(supportDir)
    | RegisterContentDirectory(dir: Path)                       // registerContentDirectories(path)
    | AddInformationObject(ioLabel: string, depth: nat)
    | AddMetadataPackage(template: string, args: seq<string>)   // the template found under this name
    | StartXmlMetadataPackage(semanticId: string)
    | StartRdfMetadataPackage(semanticId: string, namespaces: Option<string>, resourceUrl: string)
    | ContinueMetadataPackage(template: string, args: seq<string>)
    | AddSimpleElement(tag: string, attributes: Option<string>, value: Option<string>)
    | StartComplexElement(tag: string, attributes: Option<string>)
    | EndComplexElement(tag: string)
    | AddInformationPiece(ipLabel: Option<string>)
    | AddContentFile(fileRef: string)
    | AddAbsContentFile(fileRef: string)
    | AddEvent(date: string, event: string, initiator: string, descriptions: seq<string>, errors: seq<string>)
    | FinishFiles
    | Sign(signer: Signer, hashAlg: string)
    | Finalise(debug: bool)
    | Abandon

  /** One entry of the trace: the call and how it ended. */
  datatype Issued = Issued(call: BuilderCall, reply: Reply)

  type ReplyOracle = (nat, BuilderCall) -> Reply

  /**
   * One step of a `try` block: a call on the VEO, or a local operation that
   * may throw without touching the VEO (`getRealFile`, `findTemplate`).
   */
  datatype Action = Call(call: BuilderCall) | Local(reply: Reply)

  /** The calls of a block, in order, local operations dropped. */
  function CallsOf(plan: seq<Action>): (r: seq<BuilderCall>)
    ensures |r| <= |plan|
  {
    if |plan| == 0 then []
    else (if plan[0].Call? then [plan[0].call] else []) + CallsOf(plan[1..])
  }

  function Calls(t: seq<Issued>): (r: seq<BuilderCall>)
    ensures |r| == |t|
    ensures forall i :: 0 <= i < |t| ==> r[i] == t[i].call
  {
    seq(|t|, i requires 0 <= i < |t| => t[i].call)
  }

  predicate AllOk(t: seq<Issued>) {
    forall i :: 0 <= i < |t| ==> t[i].reply == Ok
  }

  /** How a block ended: `None` when it ran to completion, otherwise the exception that stopped it. */
  datatype Run = Run(issued: seq<Issued>, failure: Option<Reply>)

  /**
   * Executes a block until its first exception; `n` is the trace position
   * of the first call. The calls issued are a prefix of the block's calls,
   * each with the oracle's reply for its position; all but the stopping
   * one returned normally.
   */
  function Perform(reply: ReplyOracle, n: nat, plan: seq<Action>): (r: Run)
    ensures r.failure.Some? ==> r.failure.value != Ok
    ensures r.failure.None? ==> AllOk(r.issued)
    ensures forall i :: 0 <= i < |r.issued| ==> r.issued[i].reply == reply(n + i, r.issued[i].call)
    ensures forall i :: 0 <= i < |r.issued| - 1 ==> r.issued[i].reply == Ok
    decreases |plan|
  {
    if |plan| == 0 then Run([], None)
    else match plan[0]
      case Local(rep) =>
        if rep != Ok then Run([], Some(rep)) else Perform(reply, n, plan[1..])
      case Call(c) =>
        var rep := reply(n, c);
        if rep != Ok then Run([Issued(c, rep)], Some(rep))
        else
          var rest := Perform(reply, n + 1, plan[1..]);
          Run([Issued(c, rep)] + rest.issued, rest.failure)
  }

  /** The calls a block issues are a prefix of its calls. */
  lemma {:induction false} PerformIssuesPrefix(reply: ReplyOracle, n: nat, plan: seq<Action>)
    ensures var r := Perform(reply, n, plan);
            |r.issued| <= |CallsOf(plan)|
            && forall i :: 0 <= i < |r.issued| ==> r.issued[i].call == CallsOf(plan)[i]
    decreases |plan|
  {
    if |plan| > 0 {
      match plan[0]
      case Local(rep) =>
        PerformIssuesPrefix(reply, n, plan[1..]);
      case Call(c) =>
        var tail := CallsOf(plan[1..]);
        assert CallsOf(plan) == [c] + tail;
        if reply(n, c) == Ok {
          PerformIssuesPrefix(reply, n + 1, plan[1..]);
          var rest := Perform(reply, n + 1, plan[1..]);
          var r := Perform(reply, n, plan);
          assert r.issued == [Issued(c, Ok)] + rest.issued;
          forall i | 0 <= i < |r.issued| ensures r.issued[i].call == CallsOf(plan)[i] {
            if i > 0 {
              assert r.issued[i] == rest.issued[i - 1];
            }
          }
        }
    }
  }

  /**
   * When none of a block's local operations returns normally, the calls
   * issued are the block's leading actions, position for position, and a
   * block that completes has no local operation at all.
   */
  lemma {:induction false} PerformLeadingCalls(reply: ReplyOracle, n: nat, plan: seq<Action>)
    requires forall i :: 0 <= i < |plan| && plan[i].Local? ==> plan[i].reply != Ok
    ensures var r := Perform(reply, n, plan);
            |r.issued| <= |plan|
            && (forall i :: 0 <= i < |r.issued| ==> plan[i].Call? && r.issued[i].call == plan[i].call)
            && (r.failure.None? ==> |r.issued| == |plan|)
    decreases |plan|
  {
    if |plan| > 0 && plan[0].Call? {
      var c := plan[0].call;
      if reply(n, c) == Ok {
        PerformLeadingCalls(reply, n + 1, plan[1..]);
        var rest := Perform(reply, n + 1, plan[1..]);
        var r := Perform(reply, n, plan);
        assert r.issued == [Issued(c, Ok)] + rest.issued;
        forall i | 0 < i < |r.issued| ensures plan[i].Call? && r.issued[i].call == plan[i].call {
          assert r.issued[i] == rest.issued[i - 1];
          assert plan[1..][i - 1] == plan[i];
        }
      }
    }
  }

  /** A block that completes has issued every one of its calls. */
  lemma {:induction false} PerformCompleteIssuesAll(reply: ReplyOracle, n: nat, plan: seq<Action>)
    ensures var r := Perform(reply, n, plan);
            r.failure.None? ==> Calls(r.issued) == CallsOf(plan)
    decreases |plan|
  {
    if |plan| > 0 {
      match plan[0]
      case Local(rep) =>
        PerformCompleteIssuesAll(reply, n, plan[1..]);
      case Call(c) =>
        assert CallsOf(plan) == [c] + CallsOf(plan[1..]);
        if reply(n, c) == Ok {
          PerformCompleteIssuesAll(reply, n + 1, plan[1..]);
          var rest := Perform(reply, n + 1, plan[1..]);
          assert Calls([Issued(c, Ok)] + rest.issued) == [c] + Calls(rest.issued);
        }
    }
  }

  /** In a block of calls only, the exception that stops it is the reply of the last call issued. */
  lemma {:induction false} PerformCallFailure(reply: ReplyOracle, n: nat, plan: seq<Action>)
    requires forall i :: 0 <= i < |plan| ==> plan[i].Call?
    ensures var r := Perform(reply, n, plan);
            r.failure.Some? ==> |r.issued| > 0 && r.issued[|r.issued| - 1].reply == r.failure.value
    decreases |plan|
  {
    if |plan| > 0 {
      var c := plan[0].call;
      if reply(n, c) == Ok {
        PerformCallFailure(reply, n + 1, plan[1..]);
        var rest := Perform(reply, n + 1, plan[1..]);
        assert Perform(reply, n, plan).issued == [Issued(c, Ok)] + rest.issued;
      }
    }
  }

  /** A block runs to completion exactly when every local operation succeeds and every call returns. */
  lemma {:induction false} PerformCompletesIff(reply: ReplyOracle, n: nat, plan: seq<Action>)
    ensures Perform(reply, n, plan).failure.None? <==> AllSucceed(reply, n, plan)
    decreases |plan|
  {
    if |plan| > 0 {
      match plan[0]
      case Local(rep) => PerformCompletesIff(reply, n, plan[1..]);
      case Call(c) => PerformCompletesIff(reply, n + 1, plan[1..]);
    }
  }

  /** Reference definition: every step of the block, executed from position `n`, succeeds. */
  predicate AllSucceed(reply: ReplyOracle, n: nat, plan: seq<Action>)
    decreases |plan|
  {
    |plan| == 0 ||
    match plan[0]
    case Local(rep) => rep == Ok && AllSucceed(reply, n, plan[1..])
    case Call(c) => reply(n, c) == Ok && AllSucceed(reply, n + 1, plan[1..])
  }

  /** A block of one call issues it, and stops there exactly when it threw. */
  lemma PerformSingle(reply: ReplyOracle, n: nat, c: BuilderCall)
    ensures Perform(reply, n, [Call(c)])
         == Run([Issued(c, reply(n, c))], if reply(n, c) == Ok then None else Some(reply(n, c)))
  {
    assert [Call(c)][0] == Call(c) && [Call(c)][1..] == [];
  }

  /** When the builder never throws and every local step succeeds, a block issues all its calls. */
  lemma {:induction false} PerformNeverThrowing(reply: ReplyOracle, n: nat, plan: seq<Action>)
    requires forall m: nat, c: BuilderCall :: reply(m, c) == Ok
    requires forall i :: 0 <= i < |plan| && plan[i].Local? ==> plan[i].reply == Ok
    ensures Perform(reply, n, plan).failure.None?
    ensures Calls(Perform(reply, n, plan).issued) == CallsOf(plan)
    decreases |plan|
  {
    if |plan| > 0 {
      forall i | 0 <= i < |plan[1..]| && plan[1..][i].Local? ensures plan[1..][i].reply == Ok {
        assert plan[1..][i] == plan[i + 1];
      }
      match plan[0]
      case Local(_) => PerformNeverThrowing(reply, n, plan[1..]);
      case Call(_) => PerformNeverThrowing(reply, n + 1, plan[1..]);
    }
    PerformCompleteIssuesAll(reply, n, plan);
  }

  lemma {:induction false} CallsOfAppend(a: seq<Action>, b: seq<Action>)
    ensures CallsOf(a + b) == CallsOf(a) + CallsOf(b)
  {
    if |a| == 0 {
      assert a + b == b;
    } else {
      assert (a + b)[0] == a[0];
      assert (a + b)[1..] == a[1..] + b;
      CallsOfAppend(a[1..], b);
    }
  }

  /** Running two blocks in sequence is running their concatenation. */
  lemma {:induction false} PerformAppend(reply: ReplyOracle, n: nat, a: seq<Action>, b: seq<Action>)
    ensures var ra := Perform(reply, n, a);
            Perform(reply, n, a + b)
              == if ra.failure.Some? then ra
                 else var rb := Perform(reply, n + |ra.issued|, b);
                      Run(ra.issued + rb.issued, rb.failure)
    decreases |a|
  {
    if |a| == 0 {
      assert a + b == b;
    } else {
      assert (a + b)[0] == a[0];
      assert (a + b)[1..] == a[1..] + b;
      match a[0]
      case Local(rep) => PerformAppend(reply, n, a[1..], b);
      case Call(c) =>
        PerformAppend(reply, n + 1, a[1..], b);
        if reply(n, c) == Ok {
          var rest := Perform(reply, n + 1, a[1..]);
          if rest.failure.None? {
            var rb := Perform(reply, n + 1 + |rest.issued|, b);
            assert [Issued(c, Ok)] + rest.issued + rb.issued == [Issued(c, Ok)] + (rest.issued + rb.issued);
          }
        }
    }
  }

  /** Plain calls, as a block. */
  function AsCalls(cs: seq<BuilderCall>): (r: seq<Action>)
    ensures |r| == |cs|
    ensures forall i :: 0 <= i < |r| ==> r[i] == Call(cs[i])
  {
    seq(|cs|, i requires 0 <= i < |cs| => Call(cs[i]))
  }

  lemma {:induction false} CallsOfAsCalls(cs: seq<BuilderCall>)
    ensures CallsOf(AsCalls(cs)) == cs
  {
    if |cs| > 0 {
      assert AsCalls(cs)[1..] == AsCalls(cs[1..]);
      CallsOfAsCalls(cs[1..]);
    }
  }
  /** A block of calls only: all of them when it completes, else a prefix ending in the call that threw. */
  lemma PerformCallsOnly(reply: ReplyOracle, n: nat, cs: seq<BuilderCall>)
    ensures var run := Perform(reply, n, AsCalls(cs));
            (run.failure.None? <==> AllSucceed(reply, n, AsCalls(cs)))
            && (run.failure.None? ==> Calls(run.issued) == cs && AllOk(run.issued))
            && (run.failure.Some? ==>
                  1 <= |run.issued| <= |cs| && Calls(run.issued) == cs[..|run.issued|]
                  && run.issued[|run.issued| - 1].reply != Ok)
  {
    var plan := AsCalls(cs);
    CallsOfAsCalls(cs);
    PerformCompletesIff(reply, n, plan);
    PerformIssuesPrefix(reply, n, plan);
    PerformCompleteIssuesAll(reply, n, plan);
    PerformCallFailure(reply, n, plan);
    var run := Perform(reply, n, plan);
    if run.failure.Some? {
      assert Calls(run.issued) == cs[..|run.issued|];
    }
  }


  /** `sign(veo)`: one `veo.sign(user, hashAlg)` per signer, in list order. */
  function SignCalls(signers: seq<Signer>, hashAlg: string): (r: seq<BuilderCall>)
    ensures |r| == |signers|
    ensures forall i :: 0 <= i < |r| ==> r[i] == Sign(signers[i], hashAlg)
  {
    seq(|signers|, i requires 0 <= i < |signers| => Sign(signers[i], hashAlg))
  }

  /** Finishing a VEO: `finishFiles()`, `sign(veo)`, `finalise(false)`. */
  function FinishCalls(signers: seq<Signer>, hashAlg: string): (r: seq<BuilderCall>)
    ensures |r| == |signers| + 2
    ensures r[0] == FinishFiles && r[|r| - 1] == Finalise(false)
    ensures forall i :: 1 <= i <= |signers| ==> r[i] == Sign(signers[i - 1], hashAlg)
  {
    [FinishFiles] + SignCalls(signers, hashAlg) + [Finalise(false)]
  }

  // ---------------------------------------------------------------------
  // The life cycle of a VEO, read off a trace
  // ---------------------------------------------------------------------

  /**
   * Whether a VEO is open after `c`, given whether one was open before, or
   * `None` when the call is out of protocol: a VEO is created only when none
   * is open and every other call needs an open one. A created VEO is open
   * once its constructor returns; `abandon` closes it, and so does a
   * `finalise` that returns.
   */
  function NextOpen(open: bool, e: Issued): Option<bool> {
    match e.call
    case Create(_, _) => if open then None else Some(e.reply == Ok)
    case Abandon => if open then Some(false) else None
    case Finalise(_) => if open then Some(e.reply != Ok) else None
    case _ => if open then Some(true) else None
  }

  /** Follows the VEO life cycle through a trace; `None` when some call is out of protocol. */
  function Track(open: bool, t: seq<Issued>): Option<bool>
    decreases |t|
  {
    if |t| == 0 then Some(open)
    else match NextOpen(open, t[0])
      case None => None
      case Some(o) => Track(o, t[1..])
  }

  lemma {:induction false} TrackAppend(open: bool, a: seq<Issued>, b: seq<Issued>)
    ensures Track(open, a + b) == if Track(open, a).None? then None else Track(Track(open, a).value, b)
    decreases |a|
  {
    if |a| == 0 {
      assert a + b == b;
    } else {
      assert (a + b)[0] == a[0];
      assert (a + b)[1..] == a[1..] + b;
      match NextOpen(open, a[0])
      case None =>
      case Some(o) => TrackAppend(o, a[1..], b);
    }
  }

  /** A call that neither creates, finalises nor abandons a VEO. */
  predicate IsPlain(c: BuilderCall) {
    !c.Create? && !c.Finalise? && !c.Abandon?
  }

  predicate PlainPlan(plan: seq<Action>) {
    forall i :: 0 <= i < |plan| && plan[i].Call? ==> IsPlain(plan[i].call)
  }

  lemma {:induction false} CallsOfPlain(plan: seq<Action>)
    requires PlainPlan(plan)
    ensures forall i :: 0 <= i < |CallsOf(plan)| ==> IsPlain(CallsOf(plan)[i])
  {
    if |plan| > 0 {
      assert PlainPlan(plan[1..]) by {
        forall i | 0 <= i < |plan[1..]| && plan[1..][i].Call? ensures IsPlain(plan[1..][i].call) {
          assert plan[1..][i] == plan[i + 1];
        }
      }
      CallsOfPlain(plan[1..]);
    }
  }

  /** Plain calls keep an open VEO open. */
  lemma {:induction false} TrackPlain(t: seq<Issued>)
    requires forall i :: 0 <= i < |t| ==> IsPlain(t[i].call)
    ensures Track(true, t) == Some(true)
    decreases |t|
  {
    if |t| > 0 {
      assert NextOpen(true, t[0]) == Some(true);
      TrackPlain(t[1..]);
    }
  }

  /** Whatever a plain block does, it leaves the VEO open. */
  lemma PerformPlain(reply: ReplyOracle, n: nat, plan: seq<Action>)
    ensures PlainPlan(plan) ==> Track(true, Perform(reply, n, plan).issued) == Some(true)
  {
    if PlainPlan(plan) {
      var r := Perform(reply, n, plan);
      PerformIssuesPrefix(reply, n, plan);
      CallsOfPlain(plan);
      TrackPlain(r.issued);
    }
  }

  /**
   * A block of plain calls ending in `finalise`, run on an open VEO, leaves
   * it open exactly when some call threw.
   */
  lemma {:induction false} FinishingTrack(reply: ReplyOracle, n: nat, cs: seq<BuilderCall>)
    requires |cs| >= 1 && cs[|cs| - 1].Finalise?
    requires forall i :: 0 <= i < |cs| - 1 ==> IsPlain(cs[i])
    ensures var run := Perform(reply, n, AsCalls(cs));
            Track(true, run.issued) == Some(run.failure.Some?)
    decreases |cs|
  {
    var plan := AsCalls(cs);
    var rep := reply(n, cs[0]);
    assert plan[0] == Call(cs[0]);
    assert plan[1..] == AsCalls(cs[1..]);
    if rep == Ok {
      var rest := Perform(reply, n + 1, plan[1..]);
      if |cs| > 1 {
        FinishingTrack(reply, n + 1, cs[1..]);
        assert NextOpen(true, Issued(cs[0], Ok)) == Some(true);
        assert ([Issued(cs[0], Ok)] + rest.issued)[1..] == rest.issued;
      } else {
        assert plan[1..] == [];
      }
    }
  }

  /** Finishing an open VEO leaves it open exactly when the finishing block threw. */
  lemma FinishTrack(reply: ReplyOracle, n: nat, signers: seq<Signer>, hashAlg: string)
    ensures var run := Perform(reply, n, AsCalls(FinishCalls(signers, hashAlg)));
            Track(true, run.issued) == Some(run.failure.Some?)
  {
    FinishingTrack(reply, n, FinishCalls(signers, hashAlg));
  }

  /** `new CreateVEO(outputDir, name, hashAlg, debug); veo.addVEOReadme(supportDir);` */
  function CreateCalls(name: string, hashAlg: string): seq<BuilderCall> {
    [Create(name, hashAlg), AddReadme]
  }

  /**
   * From no open VEO, the creation block always issues the constructor,
   * and leaves a VEO open exactly when the constructor returned.
   */
  lemma CreateTrack(reply: ReplyOracle, n: nat, name: string, hashAlg: string)
    ensures var run := Perform(reply, n, AsCalls(CreateCalls(name, hashAlg)));
            |run.issued| > 0 && run.issued[0].call == Create(name, hashAlg)
            && Track(false, run.issued) == Some(run.issued[0].reply == Ok)
            && (run.failure.None? ==> run.issued[0].reply == Ok)
  {
    var plan := AsCalls(CreateCalls(name, hashAlg));
    assert plan[0] == Call(Create(name, hashAlg));
    assert plan[1..] == [Call(AddReadme)];
    assert plan[1..][1..] == [];
    var c := Create(name, hashAlg);
    if reply(n, c) == Ok {
      var q := [Call(AddReadme)];
      assert plan[1..] == q && q[0] == Call(AddReadme) && q[1..] == [];
      var rest := Perform(reply, n + 1, q);
      var rr := reply(n + 1, AddReadme);
      assert rest.issued == [Issued(AddReadme, rr)];
      var t := [Issued(c, Ok)] + rest.issued;
      assert t[1..] == rest.issued;
      assert Track(true, rest.issued) == Some(true);
    }
  }

  /** Trace positions `lo` up to `hi` (exclusive) contain no VEO creation that returned. */
  predicate NoCreationBetween(t: seq<Issued>, lo: nat, hi: nat)
    requires lo <= hi <= |t|
  {
    forall k :: lo <= k < hi ==> !(t[k].call.Create? && t[k].reply == Ok)
  }

  lemma {:induction false} ClosedStaysClosed(t: seq<Issued>, j: nat)
    requires j < |t| && Track(false, t).Some?
    requires NoCreationBetween(t, 0, j)
    ensures !t[j].call.Finalise? && !t[j].call.Abandon?
    decreases j
  {
    if j > 0 {
      var o := NextOpen(false, t[0]).value;
      assert !o;
      assert NoCreationBetween(t[1..], 0, j - 1) by {
        forall k | 0 <= k < j - 1 ensures !(t[1..][k].call.Create? && t[1..][k].reply == Ok) {
          assert t[1..][k] == t[k + 1];
        }
      }
      ClosedStaysClosed(t[1..], j - 1);
    }
  }

  lemma {:induction false} TrackSuffix(open: bool, t: seq<Issued>, i: nat)
    requires i < |t| && Track(open, t).Some?
    ensures Track(open, t[..i]).Some?
    ensures NextOpen(Track(open, t[..i]).value, t[i]).Some?
    ensures Track(NextOpen(Track(open, t[..i]).value, t[i]).value, t[i + 1..]).Some?
  {
    assert t == t[..i] + ([t[i]] + t[i + 1..]);
    TrackAppend(open, t[..i], [t[i]] + t[i + 1..]);
    var o := Track(open, t[..i]).value;
    assert ([t[i]] + t[i + 1..])[1..] == t[i + 1..];
  }

  /**
   * In an in-protocol trace, an abandoned VEO is never finalised or abandoned
   * again: between an `abandon` and any later `finalise` there is a
   * creation of a new VEO.
   */
  lemma AbandonedNeverFinalised(open: bool, t: seq<Issued>, i: nat, j: nat)
    requires i < j < |t| && Track(open, t).Some?
    requires t[i].call == Abandon
    requires t[j].call.Finalise? || t[j].call.Abandon?
    ensures !NoCreationBetween(t, i + 1, j)
  {
    TrackSuffix(open, t, i);
    var o := Track(open, t[..i]).value;
    assert NextOpen(o, t[i]) == Some(false);
    var u := t[i + 1..];
    assert u[j - i - 1] == t[j];
    if NoCreationBetween(t, i + 1, j) {
      assert NoCreationBetween(u, 0, j - i - 1) by {
        forall k | 0 <= k < j - i - 1 ensures !(u[k].call.Create? && u[k].reply == Ok) {
          assert u[k] == t[i + 1 + k];
        }
      }
      ClosedStaysClosed(u, j - i - 1);
    }
  }
}
