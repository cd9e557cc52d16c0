/** The lower-case forms of the header names used in the worked examples
    of the outbound merge and the response filter. */
module Literals {
  import opened Text

  lemma LowerConnection()
    ensures Lower("CONNECTION") == "connection"
  {
    LowerIs("CONNECTION", "connection");
  }

  lemma LowerXA()
    ensures Lower("X-A") == "x-a"
  {
    LowerIs("X-A", "x-a");
  }

  lemma LowerXIn()
    ensures Lower("X-In") == "x-in"
  {
    LowerIs("X-In", "x-in");
  }

  lemma LowerXTrace()
    ensures Lower("X-Trace") == "x-trace"
    ensures Lower("x-trace") == "x-trace"
  {
    LowerIs("X-Trace", "x-trace");
    LowerIs("x-trace", "x-trace");
  }
}
