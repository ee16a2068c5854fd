/** `QString::split(' ', Qt::SkipEmptyParts)` on the recovery phrase that
    `createNewSeed` hands back as a word list. */
module Words {

  /** A part `split` can return: not empty and without a space. */
  predicate IsWord(w: string) {
    |w| > 0 && ' ' !in w
  }

  /** Splits `s` at spaces, dropping empty parts; `cur` is the part read so far. */
  function SplitFrom(s: string, cur: string): (parts: seq<string>)
    decreases |s|
  {
    if s == [] then (if cur == [] then [] else [cur])
    else if s[0] == ' ' then (if cur == [] then [] else [cur]) + SplitFrom(s[1..], [])
    else SplitFrom(s[1..], cur + [s[0]])
  }

  function SplitWords(s: string): (parts: seq<string>) {
    SplitFrom(s, [])
  }

  /** The words joined with single spaces. */
  function JoinWords(ws: seq<string>): (s: string) {
    if ws == [] then []
    else if |ws| == 1 then ws[0]
    else ws[0] + " " + JoinWords(ws[1..])
  }

  /** Every part is a word. */
  lemma {:induction false} SplitFromWords(s: string, cur: string)
    requires ' ' !in cur
    ensures forall i :: 0 <= i < |SplitFrom(s, cur)| ==> IsWord(SplitFrom(s, cur)[i])
    decreases |s|
  {
    if s != [] {
      if s[0] == ' ' {
        SplitFromWords(s[1..], []);
      } else {
        SplitFromWords(s[1..], cur + [s[0]]);
      }
    }
  }

  lemma SplitWordsAreWords(s: string)
    ensures forall i :: 0 <= i < |SplitWords(s)| ==> IsWord(SplitWords(s)[i])
  {
    SplitFromWords(s, []);
  }

  /** Reading a run of non-space characters only extends the current part. */
  lemma {:induction false} SplitFromPlain(w: string, rest: string, cur: string)
    requires ' ' !in w
    ensures SplitFrom(w + rest, cur) == SplitFrom(rest, cur + w)
    decreases |w|
  {
    if w != [] {
      assert (w + rest)[0] == w[0];
      assert (w + rest)[1..] == w[1..] + rest;
      SplitFromPlain(w[1..], rest, cur + [w[0]]);
      assert cur + [w[0]] + w[1..] == cur + w;
    } else {
      assert w + rest == rest;
      assert cur + w == cur;
    }
  }

  /** Splitting a phrase of words joined by single spaces gives the words back. */
  lemma {:induction false} SplitJoinRoundTrip(ws: seq<string>)
    requires forall i :: 0 <= i < |ws| ==> IsWord(ws[i])
    ensures SplitWords(JoinWords(ws)) == ws
    decreases |ws|
  {
    if |ws| == 1 {
      SplitFromPlain(ws[0], [], []);
      assert ws[0] + [] == ws[0];
      assert [] + ws[0] == ws[0];
    } else if |ws| > 1 {
      var tail := JoinWords(ws[1..]);
      assert JoinWords(ws) == ws[0] + (" " + tail);
      SplitFromPlain(ws[0], " " + tail, []);
      assert [] + ws[0] == ws[0];
      assert (" " + tail)[1..] == tail;
      SplitJoinRoundTrip(ws[1..]);
      assert ws == [ws[0]] + ws[1..];
    }
  }
}
