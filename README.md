# Nine Inches of Git Hooks — a Dafny model of its core

Nine Inches of Git Hooks is a post-push git hook. It lists the commit subjects that were
just pushed, turns each into a shouted "scream text", has a speech engine read it
(an external TTS engine, or a synthetic fallback), distorts and echoes the audio, and
plays it. This project models the sequential logic of that script and proves what it
promises:

- `commit_log.dfy` (module `CommitLog`): the commit lister's handling of git's output.
  A failed git call (`None`) or empty output gives no commits. Otherwise the output is
  split on newlines, with `Split` and `Join` as Python's `str.split('\n')` and `'\n'.join`.
- `scream.dfy` (module `Scream`): the template `"COMMIT! " + message.upper() + "! PUSHED TO
  REPOSITORY! AAAAAHHHH!"`, with ASCII upper-casing.
- `post_processor.dfy` (module `PostProcessor`): the audio post-processor. It amplifies by
  1.5 and hard-clips to [-0.8, 0.8]. It builds a copy circularly shifted by 4410 samples
  (100 ms at 44 100 Hz), the `np.roll`, and zeroes its first 4410 samples in place. It
  mixes 0.7 × clipped + 0.3 × delayed. Each step is written over arrays as the script runs
  it (`ClipBuffer`, `RollBuffer`, `ZeroHeadInPlace`, `MixBuffers`, `ProcessBuffer`) and
  proved equal to a function over sequences (`Clipped`, `Rolled`, `ZeroHead`, `Delayed`,
  `Mixed`, `PostProcess`) whose properties are lemmas.
- `hook.dfy` (module `Hook`): the main loop. `RunHook` records the calls it makes as a
  trace of `Synthesize(text)` and `Play(audio)` events. `HookCalls` specifies that trace.
  The lemmas prove that synthesis happens once per commit, in order, with its scream
  text; that playback happens exactly after a synthesis that produced audio; and that
  no commits means no calls.
- `wrappers.dfy` (module `Wrappers`): `Option`, for Python's `None`-or-value results.

Samples are mathematical reals (`real`), not IEEE doubles. The speech engine is a
parameter of type `Synthesizer = string -> Option<seq<real>>`. `None` stands for an
engine that raised, or whose output is not a 1-D buffer.

The delay `int(0.1 * 44100)` is 4410 samples: the double nearest 0.1 times 44100
rounds to exactly 4410.0. `np.roll(x, k)[i]` is `x[(i - k) mod n]`. Dafny's `%` with a
positive divisor is the same floor modulus as Python's.

## Model

| member | source | states |
|---|---|---|
| `CommitLog.Split` | nine_inches_of_git_hooks.py:34 | splitting any text, the empty text included, yields at least one piece |
| `CommitLog.SplitPiecesHaveNoNewline` | nine_inches_of_git_hooks.py:34 | no piece of a split contains a newline |
| `CommitLog.SplitCount` | nine_inches_of_git_hooks.py:34 | a split yields one more piece than the text has newlines |
| `CommitLog.JoinSplit` | nine_inches_of_git_hooks.py:34 | joining the pieces with newlines reproduces the text that was split |
| `CommitLog.SplitJoin` | nine_inches_of_git_hooks.py:34 | splitting a newline-join of at least one newline-free piece gives the pieces back |
| `CommitLog.CommitMessagesFromLog` | nine_inches_of_git_hooks.py:33-38 | no commits exactly when git failed or printed nothing; otherwise newline count + 1 newline-free subjects whose newline-join is the log text |
| `Scream.UpperChar` | nine_inches_of_git_hooks.py:143 | an upper-cased character is never lower case; a lower-case letter maps to the upper-case letter at the same alphabet position; every other character is unchanged |
| `Scream.UpperAt` | nine_inches_of_git_hooks.py:143 | upper-casing keeps the length and maps each character independently |
| `Scream.UpperIsUpper` | nine_inches_of_git_hooks.py:143 | upper-cased text has no lower-case letter, and upper-casing it again changes nothing |
| `Scream.UpperFixedPoints` | nine_inches_of_git_hooks.py:143 | a text is its own upper case if and only if it has no lower-case letter |
| `Scream.ScreamTextShape` | nine_inches_of_git_hooks.py:143 | the scream text is "COMMIT! ", then the upper-cased subject, then "! PUSHED TO REPOSITORY! AAAAAHHHH!"; it is 42 characters longer than the subject; the subject can be read back from it; it has no lower-case letter |
| `Scream.ScreamTextInjectiveUpToCase` | nine_inches_of_git_hooks.py:143 | two subjects give the same scream text if and only if they are equal up to case |
| `Scream.UpperFixBug` | nine_inches_of_git_hooks.py:143 | "fix bug" upper-cases to "FIX BUG" |
| `Scream.FixBugExample` | nine_inches_of_git_hooks.py:143 | the subject "fix bug" gives the scream text "COMMIT! FIX BUG! PUSHED TO REPOSITORY! AAAAAHHHH!" |
| `PostProcessor.Distort` | nine_inches_of_git_hooks.py:63 | a processed sample lies in [-0.8, 0.8]; it is 1.5·x when that is within range, and the nearer bound otherwise |
| `PostProcessor.Clipped` | nine_inches_of_git_hooks.py:63 | the clipped buffer has the input's length; every sample lies in [-0.8, 0.8]; a sample equals 1.5·x whenever abs(1.5·x) ≤ 0.8 |
| `PostProcessor.RolledAt` | nine_inches_of_git_hooks.py:66 | the roll keeps the length and moves sample i - k to i; its first k samples are the last k of the buffer, the wrap that line 67 removes |
| `PostProcessor.Delayed` | nine_inches_of_git_hooks.py:66-67 | the delayed copy has the input's length; its first min(N, 4410) samples are 0; sample i ≥ 4410 is input sample i - 4410; for N ≤ 4410 it is all zero |
| `PostProcessor.PostProcessSpec` | nine_inches_of_git_hooks.py:63-68 | the output has the input's length; sample i < 4410 is 0.7·clipped[i]; sample i ≥ 4410 is 0.7·clipped[i] + 0.3·clipped[i - 4410]; every sample lies in [-0.8, 0.8] |
| `PostProcessor.ShortBufferHasNoEcho` | nine_inches_of_git_hooks.py:66-68 | a buffer of at most 4410 samples gets an all-zero delayed copy, so the output is 0.7·clipped everywhere |
| `PostProcessor.ConstantBufferEcho` | nine_inches_of_git_hooks.py:63-68 | for an all-ones buffer longer than the delay, the delayed copy is 0 before sample 4410, and output sample 4410 is 0.7·0.8 + 0.3·0.8 = 0.8 |
| `PostProcessor.ClipBuffer` | nine_inches_of_git_hooks.py:63 | the array loop computes the clipped buffer |
| `PostProcessor.RollBuffer` | nine_inches_of_git_hooks.py:66 | the array loop fills a new array with the circular shift |
| `PostProcessor.ZeroHeadInPlace` | nine_inches_of_git_hooks.py:67 | the first min(N, k) samples are set to 0 in place and the rest are unchanged |
| `PostProcessor.MixBuffers` | nine_inches_of_git_hooks.py:68 | the array loop computes 0.7·c + 0.3·d sample by sample |
| `PostProcessor.ProcessBuffer` | nine_inches_of_git_hooks.py:60-70 | clip, roll, zero and mix on arrays give exactly the post-processed buffer |
| `PostProcessor.CreateIndustrialScream` | nine_inches_of_git_hooks.py:40-74 | there is audio exactly when the engine returned a buffer, and it is that buffer post-processed |
| `Hook.RunHook` | nine_inches_of_git_hooks.py:118-153 | the loop makes exactly the calls `HookCalls` prescribes for the listed commits |
| `Hook.StepCallsShape` | nine_inches_of_git_hooks.py:142-151 | one commit gives a Synthesize call with its scream text, then a Play call of the processed buffer exactly when the engine returned one |
| `Hook.SynthesisOncePerMessage` | nine_inches_of_git_hooks.py:139-146 | the synthesized texts are the scream texts of the commits, one per commit, in list order |
| `Hook.StepKeepsPlaysAfterSuccess` | nine_inches_of_git_hooks.py:146-151 | handling one more commit keeps every Play right after a successful Synthesize, and every successful Synthesize followed by a Play |
| `Hook.PlaybackExactlyOnSuccess` | nine_inches_of_git_hooks.py:146-151 | in the trace, each Play directly follows the Synthesize whose processed buffer it plays; a Synthesize is followed by a Play exactly when the engine returned audio; a failed item is skipped and the loop goes on |
| `Hook.NoCommitsNoCalls` | nine_inches_of_git_hooks.py:123-127 | the hook makes no call at all exactly when git failed or listed no commits |

## Left out

- Git subprocess calls (nine_inches_of_git_hooks.py:25-31) are process I/O. The model takes the stripped `git log` text as input, with `None` standing for a `CalledProcessError` (lines 36-38).
- `str.strip()` and `.decode()` on git's output are process I/O. The input is already stripped text.
- The ChatterBox TTS engine, its import and the `CHATTERBOX_AVAILABLE` flag (lines 10-15, 43-54) are a foreign library. They are folded into the `Synthesizer` parameter.
- `create_synthetic_scream` (lines 76-108) is floating-point numerics and randomness: Gaussian noise, sin/sign/tanh/exp, `int(duration*44100)`, and a division by the maximum absolute value that is NaN on silence. It is also folded into the `Synthesizer` parameter.
- PostProcessor.CreateIndustrialScream: the engine is a function of the text, so two identical scream texts are assumed to synthesise identical buffers. The fallback in the source adds fresh random noise on every call.
- PostProcessor.PostProcessSpec: bounds hold over mathematical reals. IEEE rounding (0.7·0.8 + 0.3·0.8 may not be exactly 0.8 in doubles) and NaN samples are not modelled.
- `np.array(audio)` on output that is not 1-D, and exceptions raised inside the post-processing, are folded into the engine's `None`. The model assumes a 1-D buffer.
- Scream.UpperChar: models `str.upper` on ASCII only. Non-ASCII characters are left unchanged, whereas Python also upper-cases them and can change the length (ß becomes SS).
- Playback through sounddevice (lines 110-116) is a device effect. It is recorded as a `Play` call in the trace. Its own failures are caught in the source and change nothing else.
- The `time.sleep(0.5)` pause (line 151), the pip self-install (lines 132-136) and all `print` output are runtime effects and are not modelled.
