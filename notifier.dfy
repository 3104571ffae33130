/**
 * The chat notification channel: the text clean-up applied to every outgoing
 * message and the bounded retry policy of `send_telegram_message`.
 */
module Notifier {
  import opened Wrappers

  /** Attempts made for one message before it is dropped. */
  const MaxAttempts := 3

  /** The channel is on unless the configuration explicitly switches it off (the setting defaults to true). */
  function Enabled(setting: Option<bool>): (on: bool)
    ensures on <==> setting != Some(false)
  {
    setting.GetOr(true)
  }

  /** `str.replace("*", "")`: every asterisk removed, everything else kept in order. */
  function RemoveStars(s: string): (r: string)
    ensures '*' !in r
    ensures |r| <= |s|
    ensures forall c :: c != '*' ==> multiset(r)[c] == multiset(s)[c]
    decreases |s|
  {
    if s == [] then []
    else
      assert s == [s[0]] + s[1..];
      (if s[0] == '*' then [] else [s[0]]) + RemoveStars(s[1..])
  }

  /** Removing asterisks commutes with concatenation, so the kept characters stay in their order. */
  lemma {:induction false} RemoveStarsAppend(a: string, b: string)
    ensures RemoveStars(a + b) == RemoveStars(a) + RemoveStars(b)
    decreases |a|
  {
    if a != [] {
      assert (a + b)[0] == a[0] && (a + b)[1..] == a[1..] + b;
      RemoveStarsAppend(a[1..], b);
      var head := if a[0] == '*' then [] else [a[0]];
      assert RemoveStars(a + b) == head + RemoveStars(a[1..] + b);
    } else {
      assert a + b == b;
    }
  }

  /** A string without asterisks is left as it is. */
  lemma {:induction false} RemoveStarsNoStars(s: string)
    requires '*' !in s
    ensures RemoveStars(s) == s
    decreases |s|
  {
    if s != [] {
      RemoveStarsNoStars(s[1..]);
    }
  }

  predicate EndsWithBackslash(s: string) {
    |s| > 0 && s[|s| - 1] == '\\'
  }

  /** `str.rstrip('\\')`: the longest prefix that does not end in a backslash, the rest all backslashes. */
  function RStripBackslashes(s: string): (r: string)
    ensures !EndsWithBackslash(r)
    ensures r <= s
    ensures forall i :: |r| <= i < |s| ==> s[i] == '\\'
    decreases |s|
  {
    if EndsWithBackslash(s) then RStripBackslashes(s[..|s| - 1]) else s
  }

  /**
   * The clean-up applied after markdown escaping: the result holds no asterisk,
   * does not end in a backslash, is a prefix of the text with asterisks removed
   * (so only trailing backslashes go), and only asterisks and backslashes were dropped.
   */
  function Sanitize(escaped: string): (r: string)
    ensures '*' !in r
    ensures !EndsWithBackslash(r)
    ensures r <= RemoveStars(escaped)
    ensures forall c :: c != '*' && c != '\\' ==> multiset(r)[c] == multiset(escaped)[c]
  {
    var stars := RemoveStars(escaped);
    var r := RStripBackslashes(stars);
    assert stars == r + stars[|r|..];
    assert forall c :: c != '\\' ==> c !in stars[|r|..];
    r
  }

  /** Cleaning an already clean text changes nothing. */
  lemma SanitizeIdempotent(escaped: string)
    ensures Sanitize(Sanitize(escaped)) == Sanitize(escaped)
  {
    var r := Sanitize(escaped);
    RemoveStarsNoStars(r);
  }

  /** Whether transport attempt number `attempt` (from 0) goes through. */
  predicate Succeeds(outcomes: seq<bool>, attempt: nat) {
    attempt < |outcomes| && outcomes[attempt]
  }

  /**
   * Sends `message` when the channel is enabled by `setting` (the
   * `ENABLE_TELEGRAM` value, absent when not configured). `escape` is the library's
   * markdown escaping and `outcomes` says which transport attempts succeed.
   * Returns the texts handed to the transport, one per attempt, and whether one
   * got through. Nothing is attempted when the channel is disabled; otherwise
   * attempts stop at the first success and after `MaxAttempts` failures.
   */
  method Send(setting: Option<bool>, message: string, escape: string -> string, outcomes: seq<bool>)
    returns (handed: seq<string>, delivered: bool)
    ensures !Enabled(setting) ==> handed == [] && !delivered
    ensures |handed| <= MaxAttempts
    ensures forall n :: 0 <= n < |handed| ==> handed[n] == Sanitize(escape(message))
    ensures forall n :: 0 <= n < |handed| ==> '*' !in handed[n] && !EndsWithBackslash(handed[n])
    ensures forall n :: 0 <= n < |handed| - 1 ==> !Succeeds(outcomes, n)
    ensures delivered <==> |handed| > 0 && Succeeds(outcomes, |handed| - 1)
    ensures Enabled(setting) && !delivered ==> |handed| == MaxAttempts
    ensures delivered <==> Enabled(setting) && exists n :: 0 <= n < MaxAttempts && Succeeds(outcomes, n)
  {
    handed, delivered := [], false;
    if !Enabled(setting) {
      return;
    }
    var retryCount := 0;
    while retryCount < MaxAttempts && !delivered
      invariant 0 <= retryCount <= MaxAttempts
      invariant |handed| == retryCount
      invariant forall n :: 0 <= n < |handed| ==> handed[n] == Sanitize(escape(message))
      invariant forall n :: 0 <= n < |handed| - 1 ==> !Succeeds(outcomes, n)
      invariant delivered <==> |handed| > 0 && Succeeds(outcomes, |handed| - 1)
    {
      var text := Sanitize(escape(message));
      handed := handed + [text];
      delivered := Succeeds(outcomes, retryCount);
      retryCount := retryCount + 1;
    }
  }
}
