/** The verification gate in front of ticket submission and admin login: a
    four-digit challenge shown on screen that the user must type back. */
module Gate {
  import opened Text

  /** The challenge String(Math.floor(1000 + Math.random() * 9000)), for the
      integer n the random draw produced. */
  function Challenge(n: nat): (c: string)
    requires 1000 <= n <= 9999
    ensures |c| == 4 && AllDigits(c) && c[0] != '0'
    ensures ParseDigits(c) == n
  {
    FourDigits(n);
    ParseNatToString(n);
    NatToString(n)
  }

  /** What the session's generated code can be: not yet drawn, or a challenge. */
  predicate WellFormedChallenge(c: string) {
    c == "" || (|c| == 4 && AllDigits(c))
  }

  /** The submission check: a non-empty entry equal to the generated code. */
  predicate SubmissionCodeAccepted(entered: string, generated: string) {
    entered != "" && entered == generated
  }

  /** The admin login check: equality with the generated code and nothing more. */
  predicate LoginCodeAccepted(entered: string, generated: string) {
    entered == generated
  }

  /** A challenge from an earlier visit to the view is refused by both checks once
      a different one has been drawn. */
  lemma StaleChallengeRejected(earlier: nat, current: nat)
    requires 1000 <= earlier <= 9999 && 1000 <= current <= 9999 && earlier != current
    ensures !SubmissionCodeAccepted(Challenge(earlier), Challenge(current))
    ensures !LoginCodeAccepted(Challenge(earlier), Challenge(current))
  {
  }

  /** The two checks differ only on the empty entry: the login check has no
      emptiness test of its own, so as a comparison it accepts an empty entry
      against an empty code (in the app the login form requires the code box and
      entering the login view always draws a code). */
  lemma ChecksDifferOnlyOnEmpty(entered: string, generated: string)
    ensures SubmissionCodeAccepted(entered, generated)
            <==> LoginCodeAccepted(entered, generated) && entered != ""
    ensures LoginCodeAccepted("", "") && !SubmissionCodeAccepted("", "")
  {
  }
}
