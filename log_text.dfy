/**
 * The text side of MainForm.Log: recognising keep-alive messages of the cast
 * protocol, and the separator appended after every other message.
 */
module LogText {

  /** The marker of a keep-alive reply. */
  const PongMarker: string := "\"type\":\"PONG\""
  /** The marker of a keep-alive request. */
  const PingMarker: string := "\"type\":\"PING\""
  /** What follows every message in the transcript: a blank line. */
  const Separator: string := "\r\n\r\n"
  /** The caption in front of the time of the latest keep-alive message. */
  const KeepAliveCaption: string := "Latest keep-alive message:"

  /** sub occurs in s starting at position i. */
  predicate OccursAt(s: string, sub: string, i: nat) {
    i + |sub| <= |s| && s[i..i + |sub|] == sub
  }

  /** string.Contains(sub): an ordinal substring search (the empty string occurs everywhere). */
  function Contains(s: string, sub: string): bool
    decreases |s|
  {
    if |s| < |sub| then false
    else s[..|sub|] == sub || Contains(s[1..], sub)
  }

  /** Contains finds sub exactly when it occurs at some position of s. */
  lemma {:induction false} ContainsOccurs(s: string, sub: string)
    ensures Contains(s, sub) <==> exists i: nat :: OccursAt(s, sub, i)
    decreases |s|
  {
    if |s| < |sub| {
      if i: nat :| OccursAt(s, sub, i) {
        assert false;
      }
    } else if s[..|sub|] == sub {
      assert OccursAt(s, sub, 0);
    } else {
      ContainsOccurs(s[1..], sub);
      if Contains(s[1..], sub) {
        var i: nat :| OccursAt(s[1..], sub, i);
        assert s[i + 1..i + 1 + |sub|] == s[1..][i..i + |sub|];
        assert OccursAt(s, sub, i + 1);
      }
      if i: nat :| OccursAt(s, sub, i) {
        assert i > 0;
        assert s[1..][i - 1..i - 1 + |sub|] == s[i..i + |sub|];
        assert OccursAt(s[1..], sub, i - 1);
      }
    }
  }

  /** A message is a keep-alive message when it contains either marker. */
  predicate IsKeepAlive(message: string) {
    Contains(message, PongMarker) || Contains(message, PingMarker)
  }

  /** A marker anywhere in a message, whatever surrounds it, makes it a keep-alive message. */
  lemma KeepAliveAnywhere(before: string, marker: string, after: string)
    requires marker == PongMarker || marker == PingMarker
    ensures IsKeepAlive(before + marker + after)
  {
    var m := before + marker + after;
    assert m[|before|..|before| + |marker|] == marker;
    assert OccursAt(m, marker, |before|);
    ContainsOccurs(m, marker);
  }

  /** A message shorter than either marker is never a keep-alive message. */
  lemma ShortMessageLogged(message: string)
    requires |message| < |PingMarker|
    ensures !IsKeepAlive(message)
  {
  }

  /** Scenario: a PING message goes to the keep-alive label; "hello" goes to the transcript. */
  lemma LogScenario()
    ensures IsKeepAlive("{\"type\":\"PING\"}")
    ensures !IsKeepAlive("hello")
  {
  }
}
