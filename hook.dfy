/**
 * The hook's main loop: list the pushed commits, and for each one build its
 * scream text, synthesize and post-process it, and play the result when
 * there is one. Synthesis and playback are recorded as a trace of calls.
 */
module Hook {
  import opened Wrappers
  import opened CommitLog
  import opened Scream
  import opened PostProcessor

  /** One externally visible call made by the loop. */
  datatype Call = Synthesize(text: string) | Play(audio: seq<real>)

  /** The calls made for one commit subject. */
  function StepCalls(message: string, engine: Synthesizer): (calls: seq<Call>)
  {
    var text := ScreamText(message);
    match engine(text)
    case None => [Synthesize(text)]
    case Some(raw) => [Synthesize(text), Play(PostProcess(raw))]
  }

  /** The calls made for a list of commit subjects, in list order. */
  function HookCalls(messages: seq<string>, engine: Synthesizer): (calls: seq<Call>)
  {
    if messages == [] then []
    else HookCalls(messages[..|messages| - 1], engine) + StepCalls(messages[|messages| - 1], engine)
  }

  /** `main`: the calls one run of the hook makes for the given git log outcome. */
  method RunHook(log: Option<string>, engine: Synthesizer) returns (calls: seq<Call>)
    ensures calls == HookCalls(CommitMessages(log), engine)
  {
    var messages := CommitMessages(log);
    if |messages| == 0 {
      // nothing pushed: no synthesis and no playback
      return [];
    }
    calls := [];
    for i := 0 to |messages|
      invariant calls == HookCalls(messages[..i], engine)
    {
      assert messages[..i + 1][..i] == messages[..i];
      var text := ScreamText(messages[i]);
      calls := calls + [Synthesize(text)];
      var audio := CreateIndustrialScream(text, engine);
      if audio.Some? {
        calls := calls + [Play(audio.value[..])];
      }
    }
    assert messages[..|messages|] == messages;
  }

  /** The texts handed to the synthesizer, in call order. */
  function SynthesizedTexts(calls: seq<Call>): (texts: seq<string>)
  {
    if calls == [] then []
    else (if calls[0].Synthesize? then [calls[0].text] else []) + SynthesizedTexts(calls[1..])
  }

  lemma {:induction false} SynthesizedTextsAppend(a: seq<Call>, b: seq<Call>)
    ensures SynthesizedTexts(a + b) == SynthesizedTexts(a) + SynthesizedTexts(b)
    decreases |a|
  {
    if a == [] {
      assert a + b == b;
    } else {
      assert (a + b)[0] == a[0];
      assert (a + b)[1..] == a[1..] + b;
      SynthesizedTextsAppend(a[1..], b);
    }
  }

  /** Synthesis is called once per commit subject, in list order, with its scream text. */
  lemma {:induction false} SynthesisOncePerMessage(messages: seq<string>, engine: Synthesizer)
    ensures SynthesizedTexts(HookCalls(messages, engine))
         == seq(|messages|, i requires 0 <= i < |messages| => ScreamText(messages[i]))
    decreases |messages|
  {
    if messages != [] {
      var init := messages[..|messages| - 1];
      var last := messages[|messages| - 1];
      SynthesisOncePerMessage(init, engine);
      SynthesizedTextsAppend(HookCalls(init, engine), StepCalls(last, engine));
      StepCallsShape(last, engine);
    }
  }

  /** A Play call at `j` plays the processed buffer of the successful Synthesize call just before it. */
  predicate PlayFollowsSuccess(calls: seq<Call>, j: nat, engine: Synthesizer)
    requires j < |calls|
  {
    calls[j].Play? ==>
      j > 0 && calls[j - 1].Synthesize? && engine(calls[j - 1].text).Some?
      && calls[j].audio == PostProcess(engine(calls[j - 1].text).value)
  }

  /** A Synthesize call at `j` is followed by a Play call exactly when the engine returned a buffer. */
  predicate SuccessIsPlayed(calls: seq<Call>, j: nat, engine: Synthesizer)
    requires j < |calls|
  {
    calls[j].Synthesize? ==>
      (engine(calls[j].text).Some? <==> j + 1 < |calls| && calls[j + 1].Play?)
  }

  /**
   * Every Play call directly follows the Synthesize call whose buffer it
   * plays (post-processed), and a Synthesize call is followed by a Play
   * call exactly when the engine returned a buffer.
   */
  predicate PlaysExactlyAfterSuccess(calls: seq<Call>, engine: Synthesizer)
  {
    forall j: nat :: j < |calls| ==> PlayFollowsSuccess(calls, j, engine) && SuccessIsPlayed(calls, j, engine)
  }

  /** One commit: a Synthesize call, then a Play call of the processed buffer when there is one. */
  lemma StepCallsShape(message: string, engine: Synthesizer)
    ensures var step := StepCalls(message, engine);
      && |step| == (if engine(ScreamText(message)).Some? then 2 else 1)
      && step[0] == Synthesize(ScreamText(message))
      && (|step| == 2 ==> step[1] == Play(PostProcess(engine(ScreamText(message)).value)))
      && SynthesizedTexts(step) == [ScreamText(message)]
  {
    var text := ScreamText(message);
    var step := StepCalls(message, engine);
    match engine(text)
    case None =>
      assert step[1..] == [];
    case Some(raw) =>
      assert step[1..] == [Play(PostProcess(raw))];
      assert step[1..][1..] == [];
      assert SynthesizedTexts(step[1..]) == [];
  }

  lemma StepKeepsPlaysAfterSuccess(calls: seq<Call>, message: string, engine: Synthesizer)
    requires PlaysExactlyAfterSuccess(calls, engine)
    ensures PlaysExactlyAfterSuccess(calls + StepCalls(message, engine), engine)
  {
    var step := StepCalls(message, engine);
    StepCallsShape(message, engine);
    var all := calls + step;
    var n := |calls|;
    forall j: nat | j < |all|
      ensures PlayFollowsSuccess(all, j, engine) && SuccessIsPlayed(all, j, engine)
    {
      if j < n {
        assert PlayFollowsSuccess(calls, j, engine) && SuccessIsPlayed(calls, j, engine);
        assert all[j] == calls[j];
        if j > 0 { assert all[j - 1] == calls[j - 1]; }
        if j + 1 < n {
          assert all[j + 1] == calls[j + 1];
        } else {
          assert all[j + 1] == step[0];
        }
      } else if j == n {
        assert all[j] == step[0];
        if j + 1 < |all| { assert all[j + 1] == step[1]; }
      } else {
        assert j == n + 1 && |step| == 2;
        assert all[j] == step[1];
        assert all[j - 1] == step[0];
      }
    }
  }

  /** Playback happens for a commit exactly when its synthesis produced audio. */
  lemma {:induction false} PlaybackExactlyOnSuccess(messages: seq<string>, engine: Synthesizer)
    ensures PlaysExactlyAfterSuccess(HookCalls(messages, engine), engine)
    decreases |messages|
  {
    if messages != [] {
      var init := messages[..|messages| - 1];
      PlaybackExactlyOnSuccess(init, engine);
      StepKeepsPlaysAfterSuccess(HookCalls(init, engine), messages[|messages| - 1], engine);
    }
  }

  /** The hook makes no call at all exactly when git failed or listed no commits. */
  lemma NoCommitsNoCalls(log: Option<string>, engine: Synthesizer)
    ensures HookCalls(CommitMessages(log), engine) == [] <==> (log == None || log == Some(""))
  {
    CommitMessagesFromLog(log);
    var messages := CommitMessages(log);
    if messages != [] {
      SynthesisOncePerMessage(messages, engine);
    }
  }
}
