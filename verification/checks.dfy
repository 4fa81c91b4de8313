/** The shape every validator in the framework shares: a list of independent
    checks, each of which appends its own error when it fails, with no check
    skipping another. */
module Checks {
  import opened Wrappers
  import opened Types

  /** One check: whether it passed, and the message it reports if it did not. */
  datatype Check = Check(passed: bool, message: string)

  function CheckMessages(checks: seq<Check>): (ms: seq<string>)
    ensures |ms| == |checks|
    ensures forall i | 0 <= i < |checks| :: ms[i] == checks[i].message
  {
    seq(|checks|, i requires 0 <= i < |checks| => checks[i].message)
  }

  function CountFailed(checks: seq<Check>): (n: nat)
    ensures n <= |checks|
  {
    if |checks| == 0 then 0 else (if checks[0].passed then 0 else 1) + CountFailed(checks[1..])
  }

  /** `a` is `b` with some elements left out, the rest in their order. */
  predicate IsSubsequence<T(==)>(a: seq<T>, b: seq<T>)
    decreases |b|
  {
    |a| == 0 || (|b| > 0 && ((a[0] == b[0] && IsSubsequence(a[1..], b[1..])) || IsSubsequence(a, b[1..])))
  }

  lemma SubsequenceKeep<T>(x: T, a: seq<T>, b: seq<T>)
    requires IsSubsequence(a, b)
    ensures IsSubsequence([x] + a, [x] + b)
  {
    assert ([x] + a)[1..] == a;
    assert ([x] + b)[1..] == b;
  }

  lemma SubsequenceSkip<T>(x: T, a: seq<T>, b: seq<T>)
    requires IsSubsequence(a, b)
    ensures IsSubsequence(a, [x] + b)
  {
    assert ([x] + b)[1..] == b;
  }

  /** Every element of a subsequence is an element of the sequence. */
  lemma {:induction false} SubsequenceMembers<T>(a: seq<T>, b: seq<T>)
    requires IsSubsequence(a, b)
    ensures forall x | x in a :: x in b
    decreases |b|
  {
    if |a| > 0 {
      if a[0] == b[0] && IsSubsequence(a[1..], b[1..]) {
        SubsequenceMembers(a[1..], b[1..]);
        assert a == [a[0]] + a[1..];
        assert b == [b[0]] + b[1..];
      } else {
        SubsequenceMembers(a, b[1..]);
        assert b == [b[0]] + b[1..];
      }
    }
  }

  /** A subsequence of a sequence without repeats whose elements all lie
      in a second subsequence of it is no longer than the second. */
  lemma {:induction false} SubsequencesNested<T>(a: seq<T>, b: seq<T>, s: seq<T>)
    requires IsSubsequence(a, s) && IsSubsequence(b, s)
    requires forall i, j | 0 <= i < j < |s| :: s[i] != s[j]
    requires forall x | x in a :: x in b
    ensures |a| <= |b|
    decreases |s|
  {
    if |a| > 0 {
      var tail := s[1..];
      assert forall i, j | 0 <= i < j < |tail| :: tail[i] != tail[j] by {
        forall i, j | 0 <= i < j < |tail| ensures tail[i] != tail[j] {
          assert tail[i] == s[i + 1] && tail[j] == s[j + 1];
        }
      }
      assert s[0] !in tail by {
        forall k | 0 <= k < |tail| ensures tail[k] != s[0] {
          assert tail[k] == s[k + 1];
        }
      }
      if a[0] == s[0] {
        assert IsSubsequence(a[1..], tail) by {
          if !IsSubsequence(a[1..], tail) {
            SubsequenceMembers(a, tail);
            assert false;
          }
        }
        assert s[0] in b;
        assert |b| > 0;
        assert b[0] == s[0] && IsSubsequence(b[1..], tail) by {
          if !(b[0] == s[0] && IsSubsequence(b[1..], tail)) {
            SubsequenceMembers(b, tail);
            assert false;
          }
        }
        SubsequenceMembers(a[1..], tail);
        forall x | x in a[1..] ensures x in b[1..] {
          assert x in b && x != s[0];
          assert b == [b[0]] + b[1..];
        }
        SubsequencesNested(a[1..], b[1..], tail);
      } else {
        assert IsSubsequence(a, tail);
        SubsequenceMembers(a, tail);
        assert a[0] in b;
        if b[0] == s[0] && IsSubsequence(b[1..], tail) {
          forall x | x in a ensures x in b[1..] {
            assert x in b && x != s[0];
            assert b == [b[0]] + b[1..];
          }
          SubsequencesNested(a, b[1..], tail);
        } else {
          SubsequencesNested(a, b, tail);
        }
      }
    }
  }

  /** Runs every check in order and reports one error, naming `file` and
      `ruleId`, for each check that failed. */
  function Collect(checks: seq<Check>, file: string, ruleId: Option<string>): (r: seq<ValidationError>)
    ensures |r| == CountFailed(checks)
    ensures AllAbout(r, file, ruleId)
  {
    if |checks| == 0 then []
    else
      (if checks[0].passed then [] else [ValidationError(file, ruleId, checks[0].message)])
      + Collect(checks[1..], file, ruleId)
  }

  /** The reported messages are those of the failed checks, in check order. */
  lemma {:induction false} CollectReportsFailures(checks: seq<Check>, file: string, ruleId: Option<string>)
    ensures IsSubsequence(Messages(Collect(checks, file, ruleId)), CheckMessages(checks))
    ensures forall m :: m in Messages(Collect(checks, file, ruleId)) <==>
      exists i | 0 <= i < |checks| :: !checks[i].passed && checks[i].message == m
  {
    if |checks| > 0 {
      var rest := Collect(checks[1..], file, ruleId);
      CollectReportsFailures(checks[1..], file, ruleId);
      var head := if checks[0].passed then [] else [ValidationError(file, ruleId, checks[0].message)];
      assert Collect(checks, file, ruleId) == head + rest;
      CollectStepOrder(checks, Messages(head), Messages(rest));
      assert Messages(head + rest) == Messages(head) + Messages(rest);
      CollectStepMembers(checks, Messages(head), Messages(rest));
    }
  }

  /** The order half of one step of CollectReportsFailures. */
  lemma CollectStepOrder(checks: seq<Check>, head: seq<string>, rest: seq<string>)
    requires |checks| > 0
    requires head == if checks[0].passed then [] else [checks[0].message]
    requires IsSubsequence(rest, CheckMessages(checks[1..]))
    ensures IsSubsequence(head + rest, CheckMessages(checks))
  {
    assert CheckMessages(checks) == [checks[0].message] + CheckMessages(checks[1..]);
    if checks[0].passed {
      assert head + rest == rest;
      SubsequenceSkip(checks[0].message, rest, CheckMessages(checks[1..]));
    } else {
      SubsequenceKeep(checks[0].message, rest, CheckMessages(checks[1..]));
    }
  }

  /** The membership half of one step of CollectReportsFailures. */
  lemma CollectStepMembers(checks: seq<Check>, head: seq<string>, rest: seq<string>)
    requires |checks| > 0
    requires head == if checks[0].passed then [] else [checks[0].message]
    requires forall m :: m in rest <==>
      exists i | 0 <= i < |checks[1..]| :: !checks[1..][i].passed && checks[1..][i].message == m
    ensures forall m :: m in head + rest <==>
      exists i | 0 <= i < |checks| :: !checks[i].passed && checks[i].message == m
  {
    forall m ensures m in head + rest <==>
      exists i | 0 <= i < |checks| :: !checks[i].passed && checks[i].message == m
    {
      if exists i | 0 <= i < |checks| :: !checks[i].passed && checks[i].message == m {
        var i :| 0 <= i < |checks| && !checks[i].passed && checks[i].message == m;
        if i > 0 {
          assert checks[1..][i - 1] == checks[i];
        }
      }
      if m in rest {
        var i :| 0 <= i < |checks[1..]| && !checks[1..][i].passed && checks[1..][i].message == m;
        assert checks[i + 1] == checks[1..][i];
      }
    }
  }

  /** A check whose message no other check shares is reported exactly when
      it fails. */
  lemma CollectReportsCheck(checks: seq<Check>, file: string, ruleId: Option<string>, i: nat)
    requires i < |checks|
    requires forall j | 0 <= j < |checks| && j != i :: checks[j].message != checks[i].message
    ensures checks[i].message in Messages(Collect(checks, file, ruleId)) <==> !checks[i].passed
  {
    CollectReportsFailures(checks, file, ruleId);
  }

  /** Three checks with different messages: each message is reported
      exactly when its check fails, in check order. */
  lemma ThreeChecksReport(checks: seq<Check>, file: string, ruleId: Option<string>)
    requires |checks| == 3
    requires checks[0].message != checks[1].message && checks[0].message != checks[2].message
    requires checks[1].message != checks[2].message
    ensures var ms := Messages(Collect(checks, file, ruleId));
      && (checks[0].message in ms <==> !checks[0].passed)
      && (checks[1].message in ms <==> !checks[1].passed)
      && (checks[2].message in ms <==> !checks[2].passed)
      && IsSubsequence(ms, [checks[0].message, checks[1].message, checks[2].message])
  {
    CollectReportsFailures(checks, file, ruleId);
    CollectReportsCheck(checks, file, ruleId, 0);
    CollectReportsCheck(checks, file, ruleId, 1);
    CollectReportsCheck(checks, file, ruleId, 2);
    assert CheckMessages(checks) == [checks[0].message, checks[1].message, checks[2].message];
  }

  /** When every check fails, every check is reported. */
  lemma {:induction false} AllFailed(checks: seq<Check>)
    requires forall i | 0 <= i < |checks| :: !checks[i].passed
    ensures CountFailed(checks) == |checks|
  {
    if |checks| > 0 {
      AllFailed(checks[1..]);
    }
  }
}
