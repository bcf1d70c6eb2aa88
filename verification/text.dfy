/** Python's `str.split()` with no separator: the words of a string, cut
    at runs of whitespace. The file store takes the job's name from the
    words of the job's command line. */
module Text {

  /** `c.isspace()` for a single character of a Python 3 string. */
  predicate IsSpace(c: char)
  {
    || c == ' ' || ('\t' <= c <= '\r') || ('\U{1C}' <= c <= '\U{1F}')
    || c == '\U{85}' || c == '\U{A0}' || c == '\U{1680}'
    || ('\U{2000}' <= c <= '\U{200A}') || c == '\U{2028}' || c == '\U{2029}'
    || c == '\U{202F}' || c == '\U{205F}' || c == '\U{3000}'
  }

  predicate NoSpace(w: string)
  {
    forall i :: 0 <= i < |w| ==> !IsSpace(w[i])
  }

  /** Length of the leading run of non-whitespace characters. */
  function WordEnd(s: string): (n: nat)
    ensures n <= |s| && NoSpace(s[..n])
    ensures n < |s| ==> IsSpace(s[n])
  {
    if s == "" || IsSpace(s[0]) then 0
    else
      var n := 1 + WordEnd(s[1..]);
      assert forall i :: 1 <= i < n ==> s[..n][i] == s[1..][..n - 1][i - 1];
      n
  }

  /** `s.split()`: the maximal runs of non-whitespace characters, in order. */
  function Words(s: string): (ws: seq<string>)
    ensures forall i :: 0 <= i < |ws| ==> ws[i] != "" && NoSpace(ws[i])
    decreases |s|
  {
    if s == "" then []
    else if IsSpace(s[0]) then Words(s[1..])
    else var n := WordEnd(s); [s[..n]] + Words(s[n..])
  }

  /** `' '.join(ws)`. */
  function JoinWords(ws: seq<string>): string
  {
    if ws == [] then "" else if |ws| == 1 then ws[0] else ws[0] + " " + JoinWords(ws[1..])
  }

  lemma {:induction false} WordEndAfter(w: string, rest: string)
    requires NoSpace(w)
    ensures WordEnd(w + " " + rest) == |w|
  {
    if w != "" {
      assert (w + " " + rest)[1..] == w[1..] + " " + rest;
      WordEndAfter(w[1..], rest);
    }
  }

  lemma {:induction false} WordEndAll(w: string)
    requires NoSpace(w)
    ensures WordEnd(w) == |w|
  {
    if w != "" {
      WordEndAll(w[1..]);
    }
  }

  /** Splitting words joined by single spaces gives the words back. */
  lemma {:induction false} WordsOfJoined(ws: seq<string>)
    requires forall i :: 0 <= i < |ws| ==> ws[i] != "" && NoSpace(ws[i])
    ensures Words(JoinWords(ws)) == ws
  {
    if |ws| == 1 {
      var w := ws[0];
      WordEndAll(w);
      assert w[..|w|] == w && w[|w|..] == "";
    } else if |ws| > 1 {
      var w, rest := ws[0], JoinWords(ws[1..]);
      var s := w + " " + rest;
      WordEndAfter(w, rest);
      assert s[..|w|] == w;
      assert s[|w|..] == " " + rest;
      assert (" " + rest)[1..] == rest;
      WordsOfJoined(ws[1..]);
    }
  }
}
