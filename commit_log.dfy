/**
 * The commit lister: turns the (already stripped) text printed by
 * `git log <upstream>..HEAD --pretty=format:%s` into one subject line per commit.
 * A failing git command is the `None` log; it degrades to "no commits".
 */
module CommitLog {
  import opened Wrappers

  const Newline: char := '\n'

  /** Python's `s.split('\n')`: the pieces between newlines, in order (never empty). */
  function Split(s: string): (pieces: seq<string>)
    ensures |pieces| >= 1
    decreases |s|
  {
    if |s| == 0 then [""]
    else
      var rest := Split(s[1..]);
      if s[0] == Newline then [""] + rest
      else [[s[0]] + rest[0]] + rest[1..]
  }

  /** Python's `'\n'.join(pieces)`. */
  function Join(pieces: seq<string>): string
    requires |pieces| >= 1
    decreases |pieces|
  {
    if |pieces| == 1 then pieces[0]
    else pieces[0] + [Newline] + Join(pieces[1..])
  }

  /** Number of newline characters in `s`. */
  function NewlineCount(s: string): nat
  {
    if |s| == 0 then 0
    else (if s[0] == Newline then 1 else 0) + NewlineCount(s[1..])
  }

  predicate NoNewline(s: string)
  {
    forall i :: 0 <= i < |s| ==> s[i] != Newline
  }

  /**
   * The commit subjects for one push: nothing when git failed or printed
   * nothing, otherwise the split lines.
   */
  function CommitMessages(log: Option<string>): (messages: seq<string>)
  {
    match log
    case None => []
    case Some(s) => if s != "" then Split(s) else []
  }

  lemma {:induction false} SplitPiecesHaveNoNewline(s: string)
    ensures forall k :: 0 <= k < |Split(s)| ==> NoNewline(Split(s)[k])
    decreases |s|
  {
    if |s| > 0 {
      SplitPiecesHaveNoNewline(s[1..]);
      var rest := Split(s[1..]);
      if s[0] != Newline {
        var head := [s[0]] + rest[0];
        assert NoNewline(rest[0]);
        assert NoNewline(head) by {
          forall i | 0 <= i < |head| ensures head[i] != Newline {
            if i > 0 { assert head[i] == rest[0][i - 1]; }
          }
        }
      }
    }
  }

  lemma {:induction false} SplitCount(s: string)
    ensures |Split(s)| == NewlineCount(s) + 1
    decreases |s|
  {
    if |s| > 0 {
      SplitCount(s[1..]);
    }
  }

  /** Joining the pieces with newlines gives back the text that was split. */
  lemma {:induction false} JoinSplit(s: string)
    ensures Join(Split(s)) == s
    decreases |s|
  {
    if |s| > 0 {
      JoinSplit(s[1..]);
      var rest := Split(s[1..]);
      if s[0] == Newline {
        assert Split(s) == [""] + rest;
        assert Split(s)[1..] == rest;
        assert Join(Split(s)) == "" + [Newline] + Join(rest);
        assert s == [s[0]] + s[1..];
      } else {
        var pieces := Split(s);
        assert pieces[0] == [s[0]] + rest[0];
        assert pieces[1..] == rest[1..];
        if |rest| == 1 {
          assert Join(pieces) == [s[0]] + rest[0];
          assert s == [s[0]] + s[1..];
        } else {
          assert Join(rest) == rest[0] + [Newline] + Join(rest[1..]);
          assert Join(pieces) == [s[0]] + rest[0] + [Newline] + Join(rest[1..]);
          assert s == [s[0]] + s[1..];
        }
      }
    }
  }

  /** Splitting text that starts with a newline-free `p` glues `p` onto the first piece. */
  lemma {:induction false} SplitAfterPlainPrefix(p: string, s: string)
    requires NoNewline(p)
    ensures Split(p + s) == [p + Split(s)[0]] + Split(s)[1..]
    decreases |p|
  {
    if |p| > 0 {
      var tail := p[1..];
      assert NoNewline(tail) by {
        forall i | 0 <= i < |tail| ensures tail[i] != Newline {
          assert tail[i] == p[i + 1];
        }
      }
      SplitAfterPlainPrefix(tail, s);
      assert (p + s)[1..] == tail + s;
      assert (p + s)[0] == p[0] != Newline;
      var rest := Split(tail + s);
      assert Split(p + s) == [[p[0]] + rest[0]] + rest[1..];
      assert rest[0] == tail + Split(s)[0];
      assert [p[0]] + (tail + Split(s)[0]) == p + Split(s)[0];
    } else {
      assert p + s == s;
      assert p + Split(s)[0] == Split(s)[0];
      assert Split(s) == [Split(s)[0]] + Split(s)[1..];
    }
  }

  /** Splitting newline-joined, newline-free pieces gives back the pieces. */
  lemma {:induction false} SplitJoin(pieces: seq<string>)
    requires |pieces| >= 1
    requires forall k :: 0 <= k < |pieces| ==> NoNewline(pieces[k])
    ensures Split(Join(pieces)) == pieces
    decreases |pieces|
  {
    var p := pieces[0];
    if |pieces| == 1 {
      SplitAfterPlainPrefix(p, "");
      assert p + "" == p;
    } else {
      var rest := pieces[1..];
      SplitJoin(rest);
      var tail := [Newline] + Join(rest);
      SplitAfterPlainPrefix(p, tail);
      assert Split(tail) == [""] + Split(Join(rest));
      assert Join(pieces) == p + tail;
      assert p + "" == p;
    }
  }

  /**
   * What the lister promises: no commits exactly when git failed or printed
   * nothing; otherwise one newline-free subject per line, and the subjects
   * joined by newlines are the log text.
   */
  lemma CommitMessagesFromLog(log: Option<string>)
    ensures CommitMessages(log) == [] <==> (log == None || log == Some(""))
    ensures log.Some? && log.value != "" ==>
      var messages := CommitMessages(log);
      && |messages| == NewlineCount(log.value) + 1
      && Join(messages) == log.value
      && forall k :: 0 <= k < |messages| ==> NoNewline(messages[k])
  {
    if log.Some? && log.value != "" {
      SplitCount(log.value);
      JoinSplit(log.value);
      SplitPiecesHaveNoNewline(log.value);
    }
  }
}
