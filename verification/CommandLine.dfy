/** The in-place command-line tokenizer CLI_MakeArguments_v3 (sdk/src/ConsoleManager.c) and the strtok it rests
    on.  Pointers into the token buffer are indices, NULL is -1. */
module CommandLine {

  const NUL: char := '\0'
  const QUOTE: char := '\"'

  const DELIMITERS: set<char> := {' ', '\r', '\n'}
  const QUOTES: set<char> := {QUOTE}

  // ----- the tokens of a line, as a function of the line

  /** The first position from `p` on whose character is not in `d`. */
  function Skip(s: string, p: nat, d: set<char>): (r: nat)
    requires p <= |s|
    ensures p <= r <= |s| && (forall i :: p <= i < r ==> s[i] in d) && (r < |s| ==> s[r] !in d)
    decreases |s| - p
  {
    if p < |s| && s[p] in d then Skip(s, p + 1, d) else p
  }

  /** The first position from `p` on whose character is in `d`. */
  function Until(s: string, p: nat, d: set<char>): (r: nat)
    requires p <= |s|
    ensures p <= r <= |s| && (forall i :: p <= i < r ==> s[i] !in d) && (r < |s| ==> s[r] in d)
    decreases |s| - p
  {
    if p < |s| && s[p] !in d then Until(s, p + 1, d) else p
  }

  /** A token is the part of the line from `start` up to `end`. */
  datatype Span = Span(start: nat, end: nat)
  datatype Result = Invalid | Tokens(spans: seq<Span>)

  function Prepend(done: seq<Span>, r: Result): Result {
    match r
    case Invalid => Invalid
    case Tokens(spans) => Tokens(done + spans)
  }

  /** Where reading goes on after a token that ends at `t`. */
  function Beyond(s: string, t: nat): (r: nat)
    requires t <= |s|
    ensures t <= r <= |s|
  {
    if t < |s| then t + 1 else t
  }

  /** The tokens from `p` on. A token that starts with a quote runs to the next quote that does not directly
      follow it; the line is invalid if no quote follows at all. */
  function Parse(s: string, p: nat): Result
    requires p <= |s|
    decreases |s| - p
  {
    var a := Skip(s, p, DELIMITERS);
    if a == |s| then Tokens([])
    else if s[a] == QUOTE then
      if Until(s, a + 1, QUOTES) == |s| then Invalid
      else
        var b := Skip(s, a, QUOTES);
        if b == |s| then Tokens([])
        else
          var t := Until(s, b, QUOTES);
          Prepend([Span(b, t)], Parse(s, Beyond(s, t)))
    else
      var t := Until(s, a, DELIMITERS);
      Prepend([Span(a, t)], Parse(s, Beyond(s, t)))
  }

  /** How many entries of `argv` are written from `p` on: one for each token, and one more when the line ends in
      quotes only or in an unclosed quote. */
  function Slots(s: string, p: nat): nat
    requires p <= |s|
    decreases |s| - p
  {
    var a := Skip(s, p, DELIMITERS);
    if a == |s| then 0
    else if s[a] == QUOTE then
      if Until(s, a + 1, QUOTES) == |s| then 1
      else
        var b := Skip(s, a, QUOTES);
        if b == |s| then 1 else 1 + Slots(s, Beyond(s, Until(s, b, QUOTES)))
    else 1 + Slots(s, Beyond(s, Until(s, a, DELIMITERS)))
  }

  /** The entries are as many as the tokens, or one more. */
  lemma {:induction false} SlotsAreTokens(s: string, p: nat)
    requires p <= |s|
    ensures var r := Parse(s, p); r.Tokens? ==> |r.spans| <= Slots(s, p) <= |r.spans| + 1
    decreases |s| - p
  {
    var a := Skip(s, p, DELIMITERS);
    if a < |s| {
      var b := if s[a] == QUOTE then Skip(s, a, QUOTES) else a;
      if b < |s| {
        SlotsAreTokens(s, Beyond(s, Until(s, b, if s[a] == QUOTE then QUOTES else DELIMITERS)));
      }
    }
  }

  /** No line is too long that has at most two characters for each entry, less one. */
  lemma {:induction false} SlotsFit(s: string, p: nat)
    requires p <= |s|
    ensures 2 * Slots(s, p) <= |s| - p + 1
    decreases |s| - p
  {
    var a := Skip(s, p, DELIMITERS);
    if a < |s| {
      var b := if s[a] == QUOTE then Skip(s, a, QUOTES) else a;
      if b < |s| {
        SlotsFit(s, Beyond(s, Until(s, b, if s[a] == QUOTE then QUOTES else DELIMITERS)));
      }
    }
  }

  // ----- strtok

  /** From `p` on the buffer holds the rest of the C string `s`. */
  ghost predicate Tail(buf: seq<char>, s: string, p: nat) {
    && p <= |s| < |buf| && buf[|s|] == NUL
    && forall i {:trigger buf[i]} :: p <= i < |s| ==> buf[i] == s[i]
  }

  ghost predicate CString(s: string) {
    forall i {:trigger s[i]} :: 0 <= i < |s| ==> s[i] != NUL
  }

  class StrTok {
    var save: nat // where the next call with NULL goes on

    constructor ()
    {
      save := 0;
    }

    /** strtok(str, delims); `str` is -1 for NULL. */
    method Next(buf: array<char>, str: int, delims: set<char>, ghost s: string) returns (p: int)
      requires -1 <= str && NUL !in delims && CString(s)
      requires Tail(buf[..], s, if str >= 0 then str else save)
      modifies this, buf
      ensures var a := Skip(s, if str >= 0 then str else old(save), delims);
        if a == |s| then p == -1 && save == a && buf[..] == old(buf[..])
        else
          var t := Until(s, a, delims);
          p == a && save == Beyond(s, t) && buf[..] == old(buf[..])[t := NUL]
    {
      var from := if str >= 0 then str else save;
      p := from;
      while buf[p] in delims
        invariant from <= p <= |s| && Skip(s, p, delims) == Skip(s, from, delims)
        decreases |s| - p
      {
        p := p + 1;
      }
      if buf[p] == NUL {
        save := p;
        return -1;
      }
      var end := p;
      while buf[end] != NUL && buf[end] !in delims
        invariant p <= end <= |s| && Until(s, end, delims) == Until(s, p, delims)
        decreases |s| - end
      {
        end := end + 1;
      }
      if buf[end] == NUL {
        save := end;
      } else {
        buf[end] := NUL;
        save := end + 1;
      }
    }
  }

  // ----- the tokenizer

  /** The buffer holds the token `sp` of the line, terminated. */
  ghost predicate Holds(buf: seq<char>, s: string, sp: Span) {
    && sp.start < sp.end <= |s| < |buf| && buf[sp.end] == NUL
    && forall i {:trigger buf[i]} :: sp.start <= i < sp.end ==> buf[i] == s[i]
  }

  /** All of `done` is in the buffer, before position `p`. */
  ghost predicate Kept(buf: seq<char>, s: string, done: seq<Span>, p: int) {
    forall i {:trigger done[i]} :: 0 <= i < |done| ==> done[i].end < p && Holds(buf, s, done[i])
  }

  /** `strcpy(token + p, s + p)`: writes nothing before `p`. */
  method Restore(buf: array<char>, s: string, p: nat)
    requires p <= |s| < buf.Length
    modifies buf
    ensures Tail(buf[..], s, p) && buf[..p] == old(buf[..p])
  {
    for i := p to |s|
      invariant buf[..p] == old(buf[..p])
      invariant forall k :: p <= k < i ==> buf[k] == s[k]
    {
      buf[i] := s[i];
    }
    buf[|s|] := NUL;
  }

  /** strchr for a quote, from `p` on. */
  method FindQuote(buf: array<char>, p: nat, ghost s: string) returns (q: int)
    requires CString(s) && Tail(buf[..], s, p)
    ensures q == if Until(s, p, QUOTES) == |s| then -1 else Until(s, p, QUOTES)
  {
    q := p;
    while buf[q] != NUL && buf[q] != QUOTE
      invariant p <= q <= |s| && Until(s, q, QUOTES) == Until(s, p, QUOTES)
      decreases |s| - q
    {
      q := q + 1;
    }
    if buf[q] == NUL {
      q := -1;
    }
  }

  /** What the tokens found so far, the current one from `p` to `t`, and the rest of the line amount to. */
  ghost predicate Progress(s: string, done: seq<Span>, p: int, t: nat) {
    if p < 0 then Parse(s, 0) == Tokens(done)
    else
      p < t <= |s| &&
      Parse(s, 0) == Prepend(done, if s[p] == QUOTE then Parse(s, p) else Prepend([Span(p, t)], Parse(s, Beyond(s, t))))
  }

  /** How many entries are written from the token that stands from `p` to `t` on. */
  ghost function Left(s: string, p: int, t: nat): nat
    requires p >= 0 ==> p < t <= |s|
  {
    if p < 0 then 0 else if s[p] == QUOTE then Slots(s, p) else 1 + Slots(s, Beyond(s, t))
  }

  ghost predicate Remains(s: string, p: int, t: nat, n: int) {
    (p >= 0 ==> p < t <= |s|) && Left(s, p, t) == n
  }

  lemma LeftAt(s: string, from: nat)
    requires from <= |s|
    ensures var a := Skip(s, from, DELIMITERS);
      Slots(s, from) == if a == |s| then 0 else Left(s, a, Until(s, a, DELIMITERS))
  {
    var a := Skip(s, from, DELIMITERS);
    if a < |s| {
      SkipIs(s, a, a, DELIMITERS);
    }
  }

  lemma LeftQuoted(s: string, p: nat)
    requires p < |s| && s[p] == QUOTE
    ensures Until(s, p + 1, QUOTES) == |s| ==> Slots(s, p) == 1
    ensures Until(s, p + 1, QUOTES) < |s| ==> var b := Skip(s, p, QUOTES);
      if b == |s| then Slots(s, p) == 1 else Slots(s, p) == Left(s, b, Until(s, b, QUOTES))
  {
    SkipIs(s, p, p, DELIMITERS);
  }

  lemma PrependTwice(done: seq<Span>, sp: Span, r: Result)
    ensures Prepend(done, Prepend([sp], r)) == Prepend(done + [sp], r)
  {
    if r.Tokens? {
      assert done + ([sp] + r.spans) == done + [sp] + r.spans;
    }
  }

  lemma PrependNothing(done: seq<Span>)
    ensures Prepend(done, Tokens([])) == Tokens(done)
  {
    assert done + [] == done;
  }

  /** What is read at `p` is read where the delimiters from there on end. */
  lemma ParsePastDelimiters(s: string, p: nat)
    requires p <= |s|
    ensures var a := Skip(s, p, DELIMITERS);
      a == |s| ==> Parse(s, p) == Tokens([])
    ensures var a := Skip(s, p, DELIMITERS);
      a < |s| ==> var t := Until(s, a, DELIMITERS);
        && Parse(s, p) == Parse(s, a) && a < t
        && (s[a] != QUOTE ==> Parse(s, p) == Prepend([Span(a, t)], Parse(s, Beyond(s, t))))
  {
    var a := Skip(s, p, DELIMITERS);
    if a < |s| {
      SkipIs(s, a, a, DELIMITERS);
    }
  }

  /** After a token from `p` to `t` has been taken, the next one starts where delimiters are skipped to. */
  lemma Advance(s: string, done: seq<Span>, p: nat, t: nat)
    requires Progress(s, done, p, t) && s[p] != QUOTE
    ensures var a := Skip(s, Beyond(s, t), DELIMITERS);
      if a == |s| then Progress(s, done + [Span(p, t)], -1, 0)
      else Progress(s, done + [Span(p, t)], a, Until(s, a, DELIMITERS))
  {
    hide Parse, Skip, Until, Prepend;
    var from := Beyond(s, t);
    PrependTwice(done, Span(p, t), Parse(s, from));
    ParsePastDelimiters(s, from);
    PrependNothing(done + [Span(p, t)]);
  }

  /** A quoted token: past the quotes, up to the next one. */
  lemma Unquote(s: string, done: seq<Span>, p: nat, t: nat)
    requires Progress(s, done, p, t) && s[p] == QUOTE
    ensures Until(s, p + 1, QUOTES) == |s| ==> Parse(s, 0) == Invalid
    ensures Until(s, p + 1, QUOTES) < |s| ==> var b := Skip(s, p, QUOTES);
      p < b && if b == |s| then Progress(s, done, -1, 0) else s[b] != QUOTE && Progress(s, done, b, Until(s, b, QUOTES))
  {
  }

  /** The state of the loop: the tokens `done`, the current one from `p` to `t`, and where strtok goes on. */
  ghost predicate At(buf: seq<char>, s: string, done: seq<Span>, p: int, t: nat, save: nat) {
    && Progress(s, done, p, t) && Kept(buf, s, done, |s| + 1)
    && (p >= 0 ==>
          && Kept(buf, s, done, p) && Holds(buf, s, Span(p, t))
          && save == Beyond(s, t) && Tail(buf, s, save) && 2 * |done| <= p)
  }

  /** strtok has put a terminator behind the token from `p` to `t`; what lies before `p` is untouched. */
  lemma Cut(before: seq<char>, s: string, done: seq<Span>, from: nat, p: nat, t: nat)
    requires Tail(before, s, from) && from <= p < t <= |s| && Kept(before, s, done, p)
    ensures var buf := before[t := NUL];
      Kept(buf, s, done, p) && Holds(buf, s, Span(p, t)) && Tail(buf, s, Beyond(s, t)) && Kept(buf, s, done, |s| + 1)
  {
  }

  /** The branch for a token that starts with a quote: the buffer is restored from there and split at quotes. */
  method TakeQuoted(s: string, token: array<char>, strtok: StrTok, p: nat, ghost done: seq<Span>, ghost t: nat)
      returns (p': int, valid: bool, ghost t': nat)
    requires CString(s) && At(token[..], s, done, p, t, strtok.save) && s[p] == QUOTE
    modifies token, strtok
    ensures !valid ==> Parse(s, 0) == Invalid
    ensures valid ==> -1 <= p' && At(token[..], s, done, p', t', strtok.save) && (p' >= 0 ==> p < p' < |s|)
    ensures if valid && p' >= 0 then Remains(s, p', t', Slots(s, p)) else Slots(s, p) == 1
  {
    Unquote(s, done, p, t);
    LeftQuoted(s, p);
    ghost var was := token[..];
    Restore(token, s, p);
    KeptBelow(was, token[..], s, done, p);
    var check := FindQuote(token, p + 1, s);
    if check == -1 {
      return -1, false, 0;
    }
    ghost var b := Skip(s, p, QUOTES);
    ghost var before := token[..];
    t' := Until(s, b, QUOTES);
    p' := strtok.Next(token, p, QUOTES, s);
    valid := true;
    if p' >= 0 {
      Cut(before, s, done, p, b, t');
    }
  }

  lemma KeptBelow(was: seq<char>, buf: seq<char>, s: string, done: seq<Span>, p: nat)
    requires Kept(was, s, done, p) && |was| == |buf| && p <= |s| < |buf| && buf[..p] == was[..p]
    ensures Kept(buf, s, done, p) && forall q :: p <= q ==> Kept(buf, s, done, q)
  {
  }

  /** The other branch: the current token is done, the next one is cut off at a delimiter. */
  method TakePlain(s: string, token: array<char>, strtok: StrTok, p: nat, ghost done: seq<Span>, ghost t: nat)
      returns (p': int, ghost done': seq<Span>, ghost t': nat)
    requires CString(s) && At(token[..], s, done, p, t, strtok.save) && s[p] != QUOTE
    modifies token, strtok
    ensures done' == done + [Span(p, t)]
    ensures -1 <= p' && At(token[..], s, done', p', t', strtok.save) && (p' >= 0 ==> p < p' < |s|)
    ensures Remains(s, p', t', Slots(s, Beyond(s, t)))
  {
    Advance(s, done, p, t);
    LeftAt(s, Beyond(s, t));
    done' := done + [Span(p, t)];
    ghost var before, from := token[..], strtok.save;
    ghost var a := Skip(s, from, DELIMITERS);
    t' := Until(s, a, DELIMITERS);
    p' := strtok.Next(token, -1, DELIMITERS, s);
    if p' >= 0 {
      assert t < from <= a;
      assert Kept(before, s, done', a);
      Cut(before, s, done', from, a, t');
    }
  }

  /** What the loop does with a token decides how many entries remain to be written. */
  lemma LeftStep(s: string, p: nat, t: nat, n: int)
    requires p < t <= |s| && Remains(s, p, t, n)
    ensures n > 0 && n == if s[p] == QUOTE then Slots(s, p) else 1 + Slots(s, Beyond(s, t))
  {
  }

  /** What the loop reads off its state. */
  lemma Reading(buf: seq<char>, s: string, done: seq<Span>, p: int, t: nat, save: nat)
    requires At(buf, s, done, p, t, save)
    ensures p >= 0 ==> p < |s| < |buf| && buf[p] == s[p] && 2 * |done| <= p
    ensures p < 0 ==> Parse(s, 0) == Tokens(done)
    ensures forall i {:trigger done[i]} :: 0 <= i < |done| ==> Holds(buf, s, done[i])
  {
  }

  /** The first token. */
  lemma Begin(before: seq<char>, s: string)
    requires Tail(before, s, 0)
    ensures var a := Skip(s, 0, DELIMITERS); var t := Until(s, a, DELIMITERS);
      if a == |s| then At(before, s, [], -1, t, a) else At(before[t := NUL], s, [], a, t, Beyond(s, t))
  {
    hide Skip, Until, Tail, Holds;
    var a := Skip(s, 0, DELIMITERS);
    if a < |s| {
      SkipIs(s, a, a, DELIMITERS);
      Cut(before, s, [], 0, a, Until(s, a, DELIMITERS));
    }
  }

  /** CLI_MakeArguments_v3: -1 for an invalid line; otherwise the number of tokens, with `argv` pointing at them in
      the token buffer, each terminated there. `parm1` is str_TokenParm1: the line from the second token on.
      `overrun` stops the model where the code writes an entry past the end of `argv`; what follows is undefined. */
  method MakeArguments(s: string, token: array<char>, argv: array<int>, strtok: StrTok)
      returns (numtokens: int, parm1: string, overrun: bool)
    requires CString(s) && |s| < token.Length
    modifies token, argv, strtok
    ensures overrun <==> Slots(s, 0) > argv.Length
    ensures overrun ==> numtokens == argv.Length // the entry it is about to write
    ensures !overrun ==> (numtokens == -1 <==> Parse(s, 0) == Invalid)
    ensures var r := Parse(s, 0); !overrun && r.Tokens? ==>
      && numtokens == |r.spans| <= argv.Length
      && (forall i {:trigger argv[i]} :: 0 <= i < numtokens ==>
            argv[i] == r.spans[i].start && Holds(token[..], s, r.spans[i]))
      && (numtokens >= 2 ==> 0 <= argv[1] <= |s| && parm1 == s[argv[1]..])
  {
    hide At, Holds, Parse, Slots, Skip, Until, CString, Tail;
    parm1 := "";
    numtokens := 0;
    Restore(token, s, 0);
    Begin(token[..], s);
    LeftAt(s, 0);
    ghost var done: seq<Span>, t: nat := [], Until(s, Skip(s, 0, DELIMITERS), DELIMITERS);
    var p := strtok.Next(token, 0, DELIMITERS, s);
    while p != -1
      invariant -1 <= p < |s| + 1 && numtokens == |done| && At(token[..], s, done, p, t, strtok.save)
      invariant if p == -1 then Slots(s, 0) <= argv.Length else Remains(s, p, t, Slots(s, 0) - numtokens)
      invariant numtokens <= argv.Length
      invariant forall i {:trigger argv[i]} :: 0 <= i < numtokens ==> argv[i] == done[i].start
      invariant numtokens >= 2 ==> 0 <= argv[1] <= |s| && parm1 == s[argv[1]..]
      decreases if p == -1 then 0 else |s| - p + 1
    {
      Reading(token[..], s, done, p, t, strtok.save);
      LeftStep(s, p, t, Slots(s, 0) - numtokens);
      if numtokens >= argv.Length {
        return numtokens, parm1, true;
      }
      argv[numtokens] := p;
      if numtokens == 1 {
        parm1 := s[p..];
      }
      if token[p] == QUOTE {
        var valid;
        p, valid, t := TakeQuoted(s, token, strtok, p, done, t);
        if !valid {
          return -1, parm1, false;
        }
      } else {
        numtokens := numtokens + 1;
        p, done, t := TakePlain(s, token, strtok, p, done, t);
      }
    }
    Reading(token[..], s, done, p, t, strtok.save);
    overrun := false;
  }

  // ----- tokenizing undoes printing

  /** A token as typed, in quotes or not. */
  datatype Word = Word(text: string, quoted: bool)

  predicate QuoteFree(text: string) {
    forall i {:trigger text[i]} :: 0 <= i < |text| ==> text[i] != '\"'
  }

  /** Blanks, returns and newlines only. */
  predicate Gap(g: string) {
    forall i {:trigger g[i]} :: 0 <= i < |g| ==> g[i] == ' ' || g[i] == '\r' || g[i] == '\n'
  }

  predicate GapFree(text: string) {
    forall i {:trigger text[i]} :: 0 <= i < |text| ==> text[i] != ' ' && text[i] != '\r' && text[i] != '\n'
  }

  /** A token can be typed: it is not empty and has no quote and no NUL, and no blank, return or newline unless it is
      put in quotes. */
  predicate Typable(w: Word) {
    && w.text != "" && QuoteFree(w.text)
    && (forall i {:trigger w.text[i]} :: 0 <= i < |w.text| ==> w.text[i] != '\0')
    && (!w.quoted ==> GapFree(w.text))
  }

  function Typed(w: Word): string {
    if w.quoted then "\"" + w.text + "\"" else w.text
  }

  /** The words, each with what separates it from what follows. */
  function Spread(ws: seq<Word>, gaps: seq<string>): string
    requires |ws| == |gaps|
    decreases |ws|
  {
    if ws == [] then "" else Typed(ws[0]) + gaps[0] + Spread(ws[1..], gaps[1..])
  }

  /** Every word can be typed, and something separates it from the next one, or from what follows the last. */
  ghost predicate Separated(ws: seq<Word>, gaps: seq<string>, tail: string) {
    && |ws| == |gaps|
    && (forall i {:trigger ws[i]} :: 0 <= i < |ws| ==> Typable(ws[i]))
    && (forall i {:trigger gaps[i]} :: 0 <= i < |ws| ==>
          Gap(gaps[i]) && (i + 1 < |ws| || tail != "" ==> gaps[i] != ""))
  }

  /** Single blanks between `n` words. */
  function Blanks(n: nat): (r: seq<string>)
    ensures |r| == n
  {
    seq(n, i => if i + 1 < n then " " else "")
  }

  /** The words with single blanks between them. */
  function Print(ws: seq<Word>): string {
    Spread(ws, Blanks(|ws|))
  }

  /** The tokens found are the words, in order. */
  ghost predicate Spells(s: string, r: Result, ws: seq<Word>) {
    && r.Tokens? && |r.spans| == |ws|
    && forall i {:trigger ws[i]} :: 0 <= i < |ws| ==> Fits(s, r.spans[i], ws[i])
  }

  ghost predicate Fits(s: string, sp: Span, w: Word) {
    sp.start <= sp.end <= |s| && s[sp.start..sp.end] == w.text
  }

  lemma UntilIs(s: string, p: nat, t: nat, d: set<char>)
    requires p <= t <= |s| && (t < |s| ==> s[t] in d)
    requires forall i :: p <= i < t ==> s[i] !in d
    ensures Until(s, p, d) == t
  {
  }

  lemma SkipIs(s: string, p: nat, a: nat, d: set<char>)
    requires p <= a <= |s| && (a < |s| ==> s[a] !in d)
    requires forall i :: p <= i < a ==> s[i] in d
    ensures Skip(s, p, d) == a
  {
  }

  lemma ParseAtDelimiter(s: string, p: nat)
    requires p < |s| && s[p] in DELIMITERS
    ensures Parse(s, p) == Parse(s, p + 1) && Slots(s, p) == Slots(s, p + 1)
  {
  }

  /** `text` stands at position `p` of the line. */
  ghost predicate StandsAt(s: string, p: nat, text: string) {
    p + |text| <= |s| && forall i {:trigger text[i]} :: 0 <= i < |text| ==> s[p + i] == text[i]
  }

  lemma ParsePlain(s: string, p: nat, t: nat)
    requires p < t <= |s| && s[p] !in DELIMITERS && s[p] != QUOTE && Until(s, p, DELIMITERS) == t
    ensures Parse(s, p) == Prepend([Span(p, t)], Parse(s, Beyond(s, t))) && Slots(s, p) == 1 + Slots(s, Beyond(s, t))
  {
    hide Skip, Until;
    SkipIs(s, p, p, DELIMITERS);
  }

  lemma PlainWord(s: string, p: nat, w: Word)
    requires Typable(w) && !w.quoted && StandsAt(s, p, w.text)
    requires p + |w.text| < |s| ==> s[p + |w.text|] in DELIMITERS
    ensures Parse(s, p) == Prepend([Span(p, p + |w.text|)], Parse(s, p + |w.text|))
    ensures Slots(s, p) == 1 + Slots(s, p + |w.text|)
  {
    hide Parse, Slots, Skip, Until;
    var t := p + |w.text|;
    assert s[p] == w.text[0];
    assert forall i :: p <= i < t ==> s[i] == w.text[i - p];
    UntilIs(s, p, t, DELIMITERS);
    ParsePlain(s, p, t);
    if t < |s| {
      ParseAtDelimiter(s, t);
    }
  }

  lemma ParseQuoted(s: string, p: nat, b: nat, t: nat)
    requires p < b < t < |s| && s[p] == QUOTE && Until(s, p + 1, QUOTES) < |s|
    requires Skip(s, p, QUOTES) == b && Until(s, b, QUOTES) == t
    ensures Parse(s, p) == Prepend([Span(b, t)], Parse(s, t + 1)) && Slots(s, p) == 1 + Slots(s, t + 1)
  {
    hide Skip, Until;
    SkipIs(s, p, p, DELIMITERS);
  }

  lemma QuotedWord(s: string, p: nat, w: Word)
    requires QuoteFree(w.text) && w.text != "" && StandsAt(s, p + 1, w.text)
    requires p + 1 + |w.text| < |s| && s[p] == QUOTE && s[p + 1 + |w.text|] == QUOTE
    ensures Parse(s, p) == Prepend([Span(p + 1, p + 1 + |w.text|)], Parse(s, p + 2 + |w.text|))
    ensures Slots(s, p) == 1 + Slots(s, p + 2 + |w.text|)
  {
    hide Skip, Until, Parse, Slots;
    var t := p + 1 + |w.text|;
    assert s[p + 1] == w.text[0] != QUOTE;
    assert forall i :: p + 1 <= i < t ==> s[i] == w.text[i - (p + 1)];
    UntilIs(s, p + 1, t, QUOTES);
    SkipIs(s, p, p + 1, QUOTES);
    ParseQuoted(s, p, p + 1, t);
  }

  /** Where a typed word stands in a line. */
  lemma WordStands(before: string, w: Word, rest: string)
    ensures var s, start := before + Typed(w) + rest, |before| + if w.quoted then 1 else 0;
      && StandsAt(s, start, w.text) && s[start..start + |w.text|] == w.text
      && (w.quoted ==> start + |w.text| < |s| && s[start - 1] == QUOTE && s[start + |w.text|] == QUOTE)
      && (rest != "" ==> |before| + |Typed(w)| < |s| && s[|before| + |Typed(w)|] == rest[0])
      && (rest == "" ==> |before| + |Typed(w)| == |s|)
  {
    var s := before + Typed(w) + rest;
    if w.quoted {
      assert s == (before + [QUOTE]) + w.text + ([QUOTE] + rest);
      Between(before + [QUOTE], w.text, [QUOTE] + rest);
    } else {
      Between(before, w.text, rest);
    }
  }

  lemma Between(a: string, text: string, b: string)
    ensures var s := a + text + b; StandsAt(s, |a|, text) && s[|a|..|a| + |text|] == text
  {
  }

  /** One typed word is read as one token, and reading goes on behind it. */
  lemma ParseWord(before: string, w: Word, rest: string)
    requires Typable(w) && (rest == "" || rest[0] in DELIMITERS)
    ensures var s, p := before + Typed(w) + rest, |before|;
      var start := if w.quoted then p + 1 else p;
      && s[start..start + |w.text|] == w.text
      && Parse(s, p) == Prepend([Span(start, start + |w.text|)], Parse(s, p + |Typed(w)|))
      && Slots(s, p) == 1 + Slots(s, p + |Typed(w)|)
  {
    hide Parse, Slots, StandsAt, QuoteFree, GapFree;
    WordStands(before, w, rest);
    var s, p := before + Typed(w) + rest, |before|;
    if w.quoted {
      QuotedWord(s, p, w);
    } else {
      PlainWord(s, p, w);
    }
  }

  /** One word more in front. */
  lemma SpellsCons(s: string, sp: Span, r: Result, w: Word, ws: seq<Word>)
    requires Spells(s, r, ws) && Fits(s, sp, w)
    ensures Spells(s, Prepend([sp], r), [w] + ws)
  {
  }

  /** Reading goes on behind blanks, returns and newlines. */
  lemma {:induction false} ParseAfterGap(s: string, p: nat, q: nat)
    requires p <= q <= |s| && forall i :: p <= i < q ==> s[i] == ' ' || s[i] == '\r' || s[i] == '\n'
    ensures Parse(s, p) == Parse(s, q) && Slots(s, p) == Slots(s, q)
    decreases q - p
  {
    hide Parse, Slots;
    if p < q {
      ParseAtDelimiter(s, p);
      ParseAfterGap(s, p + 1, q);
    }
  }

  lemma GapStands(before: string, w: Word, g: string, rest: string)
    requires Gap(g)
    ensures var s, p := before + Typed(w) + (g + rest), |before + Typed(w)|;
      p + |g| <= |s| && forall i :: p <= i < p + |g| ==> s[i] == ' ' || s[i] == '\r' || s[i] == '\n'
  {
    var s, p := before + Typed(w) + (g + rest), |before + Typed(w)|;
    assert forall i :: p <= i < p + |g| ==> s[i] == g[i - p];
  }

  /** The tokens found so far are the words, in order. */
  ghost predicate AllFit(s: string, spans: seq<Span>, ws: seq<Word>) {
    |spans| == |ws| && forall i {:trigger ws[i]} :: 0 <= i < |ws| ==> Fits(s, spans[i], ws[i])
  }

  lemma AllFitCons(s: string, sp: Span, spans: seq<Span>, w: Word, ws: seq<Word>)
    requires AllFit(s, spans, ws) && Fits(s, sp, w)
    ensures AllFit(s, [sp] + spans, [w] + ws)
  {
  }

  /** Typed words are read as just these tokens, however they are separated, whatever precedes and follows them. */
  lemma {:induction false} ParseSpread(before: string, ws: seq<Word>, gaps: seq<string>, tail: string)
      returns (spans: seq<Span>)
    requires Separated(ws, gaps, tail)
    ensures var s, q := before + Spread(ws, gaps) + tail, |before| + |Spread(ws, gaps)|;
      && AllFit(s, spans, ws)
      && Parse(s, |before|) == Prepend(spans, Parse(s, q)) && Slots(s, |before|) == |ws| + Slots(s, q)
    decreases |ws|
  {
    hide Parse, Slots, AllFit, Typable, Prepend, Typed, Gap, Spread;
    var s := before + Spread(ws, gaps) + tail;
    SpreadSteps(before, ws, gaps, tail);
    if ws == [] {
      spans := [];
      PrependNone(Parse(s, |before|));
      NoneFit(s);
    } else {
      var w, g, more, less := ws[0], gaps[0], ws[1..], gaps[1..];
      var rest, next := Spread(more, less) + tail, before + Typed(w) + g;
      GapBegins(g);
      NothingSpread();
      ParseWord(before, w, g + rest);
      GapStands(before, w, g, rest);
      ParseAfterGap(s, |before + Typed(w)|, |next|);
      var found := ParseSpread(next, more, less, tail);
      var start := if w.quoted then |before| + 1 else |before|;
      var sp := Span(start, start + |w.text|);
      spans := [sp] + found;
      WordFits(before, w, g + rest);
      AllFitCons(s, sp, found, w, more);
      PrependMore(sp, found, Parse(s, |before| + |Spread(ws, gaps)|));
    }
  }

  /** How a line of words begins. */
  lemma SpreadSteps(before: string, ws: seq<Word>, gaps: seq<string>, tail: string)
    requires |ws| == |gaps|
    ensures ws == [] ==> before + Spread(ws, gaps) + tail == before + tail && Spread(ws, gaps) == ""
    ensures ws != [] ==>
      var head, more := before + Typed(ws[0]), Spread(ws[1..], gaps[1..]);
      && before + Spread(ws, gaps) + tail == head + (gaps[0] + (more + tail)) == head + gaps[0] + more + tail
      && |before| + |Spread(ws, gaps)| == |head + gaps[0]| + |more| && [ws[0]] + ws[1..] == ws
  {
    hide Typed;
    if ws != [] {
      Regroup(before, Typed(ws[0]), gaps[0], Spread(ws[1..], gaps[1..]), tail);
    }
  }

  lemma Regroup(a: string, t: string, g: string, more: string, tail: string)
    ensures a + (t + g + more) + tail == (a + t) + (g + (more + tail)) == (a + t) + g + more + tail
  {
    assert a + (t + g + more) == (a + t) + g + more;
    assert (a + t) + g + more + tail == (a + t) + g + (more + tail) == (a + t) + (g + (more + tail));
  }

  lemma NothingSpread()
    ensures Spread([], []) == ""
  {
  }

  lemma GapBegins(g: string)
    requires Gap(g)
    ensures g != "" ==> g[0] in DELIMITERS
  {
  }

  lemma PrependNone(r: Result)
    ensures Prepend([], r) == r
  {
    if r.Tokens? {
      assert [] + r.spans == r.spans;
    }
  }

  lemma PrependMore(sp: Span, found: seq<Span>, r: Result)
    ensures Prepend([sp], Prepend(found, r)) == Prepend([sp] + found, r)
  {
    if r.Tokens? {
      assert [sp] + (found + r.spans) == [sp] + found + r.spans;
    }
  }

  lemma NoneFit(s: string)
    ensures AllFit(s, [], [])
  {
  }

  lemma NothingLeft(s: string, p: nat)
    requires p == |s|
    ensures Spells(s, Parse(s, p), []) && Slots(s, p) == 0
  {
  }

  lemma WordFits(before: string, w: Word, rest: string)
    ensures var start := if w.quoted then |before| + 1 else |before|;
      start + |w.text| <= |before + Typed(w) + rest|
  {
  }

  /** Whatever typable words are typed, with any blanks, returns and newlines between, before and behind them,
      tokenizing finds just these words and writes as many entries. */
  lemma TokenizeUndoesPrint(lead: string, ws: seq<Word>, gaps: seq<string>)
    requires Gap(lead) && Separated(ws, gaps, "")
    ensures var s := lead + Spread(ws, gaps); Spells(s, Parse(s, 0), ws) && Slots(s, 0) == |ws|
  {
    hide Parse, Slots, Spread, Typable;
    var s := lead + Spread(ws, gaps);
    var spans := ParseSpread(lead, ws, gaps, "");
    assert s + "" == s;
    assert forall i :: 0 <= i < |lead| ==> s[i] == lead[i];
    ParseAfterGap(s, 0, |lead|);
    AtEnd(s);
    PrependNothing(spans);
  }

  lemma AtEnd(s: string)
    ensures Parse(s, |s|) == Tokens([]) && Slots(s, |s|) == 0
  {
  }

  /** A quote that is not closed makes the whole line invalid, whatever words precede it. */
  lemma UnclosedIsInvalid(lead: string, ws: seq<Word>, gaps: seq<string>, text: string)
    requires Gap(lead) && QuoteFree(text) && Separated(ws, gaps, "\"" + text)
    ensures Parse(lead + Spread(ws, gaps) + ("\"" + text), 0) == Invalid
  {
    hide Parse, Slots, Spread, Typable;
    var tail := "\"" + text;
    var s, q := lead + Spread(ws, gaps) + tail, |lead| + |Spread(ws, gaps)|;
    var spans := ParseSpread(lead, ws, gaps, tail);
    assert forall i :: 0 <= i < |lead| ==> s[i] == lead[i];
    ParseAfterGap(s, 0, |lead|);
    assert s[q] == '\"' && forall i :: q < i < |s| ==> s[i] == text[i - q - 1];
    OneQuote(s, q);
  }

  lemma OneQuote(s: string, q: nat)
    requires q < |s| && s[q] == '\"' && forall i :: q < i < |s| ==> s[i] != '\"'
    ensures Parse(s, q) == Invalid
  {
    SkipIs(s, q, q, DELIMITERS);
    UntilIs(s, q + 1, |s|, QUOTES);
  }

  /** Quotes with nothing in them at the end of a line are no token, but take an entry. */
  lemma EmptyQuotes(lead: string, ws: seq<Word>, gaps: seq<string>)
    requires Gap(lead) && Separated(ws, gaps, "\"\"")
    ensures var s := lead + Spread(ws, gaps) + "\"\""; Spells(s, Parse(s, 0), ws) && Slots(s, 0) == |ws| + 1
  {
    hide Parse, Slots, Spread, Typable;
    var s, q := lead + Spread(ws, gaps) + "\"\"", |lead| + |Spread(ws, gaps)|;
    var spans := ParseSpread(lead, ws, gaps, "\"\"");
    assert forall i :: 0 <= i < |lead| ==> s[i] == lead[i];
    ParseAfterGap(s, 0, |lead|);
    assert s[q] == '\"' && s[q + 1] == '\"' && |s| == q + 2;
    TwoQuotes(s, q);
    PrependNothing(spans);
  }

  lemma TwoQuotes(s: string, q: nat)
    requires |s| == q + 2 && s[q] == '\"' && s[q + 1] == '\"'
    ensures Parse(s, q) == Tokens([]) && Slots(s, q) == 1
  {
    SkipIs(s, q, q, DELIMITERS);
    UntilIs(s, q + 1, q + 1, QUOTES);
    SkipIs(s, q, |s|, QUOTES);
  }

  /** For a word put in quotes the condition is exact: it is read back if and only if it is neither empty nor
      contains a quote. */
  lemma QuotedWordIff(text: string)
    ensures var ws := [Word(text, true)];
      Spells(Print(ws), Parse(Print(ws), 0), ws) <==> text != "" && QuoteFree(text)
  {
    hide Parse;
    var w := Word(text, true);
    var s := Print([w]);
    PrintsOne(w);
    if text != "" && QuoteFree(text) {
      QuotedAt(s, w);
    } else if Spells(s, Parse(s, 0), [w]) {
      assert Fits(s, Parse(s, 0).spans[0], [w][0]);
      FirstIsQuoteFree(s, Parse(s, 0));
    }
  }

  lemma PrintsOne(w: Word)
    ensures Print([w]) == Typed(w)
  {
    assert Spread([w][1..], Blanks(1)[1..]) == "";
    assert Typed(w) + "" + "" == Typed(w);
  }

  lemma FirstIsQuoteFree(s: string, r: Result)
    requires s != "" && s[0] == QUOTE && r == Parse(s, 0) && r.Tokens? && r.spans != []
    ensures var sp := r.spans[0]; sp.start < sp.end <= |s| && QuoteFree(s[sp.start..sp.end])
  {
    SkipIs(s, 0, 0, DELIMITERS);
  }

  lemma QuotedAt(s: string, w: Word)
    requires w.quoted && w.text != "" && QuoteFree(w.text) && s == "\"" + w.text + "\""
    ensures Spells(s, Parse(s, 0), [w])
  {
    hide Parse, Slots;
    assert StandsAt(s, 1, w.text);
    QuotedWord(s, 0, w);
    NothingLeft(s, |s|);
    SpellsCons(s, Span(1, 1 + |w.text|), Parse(s, |s|), w, []);
    assert [w] + [] == [w];
  }

  lemma {:induction false} SpreadIsCString(ws: seq<Word>, gaps: seq<string>)
    requires Separated(ws, gaps, "")
    ensures CString(Spread(ws, gaps))
    decreases |ws|
  {
    hide QuoteFree, GapFree;
    if ws != [] {
      SpreadIsCString(ws[1..], gaps[1..]);
      assert Typable(ws[0]) && Gap(gaps[0]);
      assert CString(Typed(ws[0])) && CString(gaps[0]);
    }
  }

  lemma BothCStrings(a: string, b: string)
    requires CString(a) && CString(b)
    ensures CString(a + b)
  {
  }

  lemma GapIsCString(g: string)
    requires Gap(g)
    ensures CString(g)
  {
  }

  /** The buffer has `text`, terminated, at position `p`. */
  ghost predicate ArgumentIs(buf: seq<char>, p: int, text: string) {
    0 <= p && p + |text| < |buf| && buf[p..p + |text|] == text && buf[p + |text|] == NUL
  }

  lemma HeldArgument(buf: seq<char>, s: string, sp: Span, text: string)
    requires Holds(buf, s, sp) && s[sp.start..sp.end] == text
    ensures ArgumentIs(buf, sp.start, text)
  {
  }

  /** The same of the buffer: unless there are more words than entries, the arguments point at exactly the words. */
  method TokenizePrinted(lead: string, ws: seq<Word>, gaps: seq<string>,
                         token: array<char>, argv: array<int>, strtok: StrTok)
      returns (n: int, overrun: bool)
    requires Gap(lead) && Separated(ws, gaps, "")
    requires |lead| + |Spread(ws, gaps)| < token.Length
    modifies token, argv, strtok
    ensures overrun <==> |ws| > argv.Length
    ensures !overrun ==> n == |ws|
    ensures !overrun ==> forall i {:trigger ws[i]} :: 0 <= i < |ws| ==> ArgumentIs(token[..], argv[i], ws[i].text)
  {
    hide Parse, Slots, Holds, Spread, Gap, CString, ArgumentIs, Typable;
    TokenizeUndoesPrint(lead, ws, gaps);
    SpreadIsCString(ws, gaps);
    GapIsCString(lead);
    BothCStrings(lead, Spread(ws, gaps));
    var parm1;
    n, parm1, overrun := MakeArguments(lead + Spread(ws, gaps), token, argv, strtok);
    ghost var s := lead + Spread(ws, gaps);
    ghost var r := Parse(s, 0);
    if !overrun {
      forall i {:trigger ws[i]} | 0 <= i < |ws| ensures ArgumentIs(token[..], argv[i], ws[i].text) {
        assert argv[i] == r.spans[i].start && Fits(s, r.spans[i], ws[i]);
        HeldArgument(token[..], s, r.spans[i], ws[i].text);
      }
    }
  }

  // ----- what a token is, read off the line

  /** A token either follows a quote, has none in it, and ends at the next one or at the end; or it has no blank, return
      or newline in it, and ends at the next of these or at the end. */
  ghost predicate Shaped(s: string, sp: Span) {
    && sp.start < sp.end <= |s|
    && (|| (sp.start > 0 && s[sp.start - 1] == '\"' && QuoteFree(s[sp.start..sp.end])
            && (sp.end < |s| ==> s[sp.end] == '\"'))
        || (GapFree(s[sp.start..sp.end])
            && (sp.end < |s| ==> s[sp.end] == ' ' || s[sp.end] == '\r' || s[sp.end] == '\n')))
  }

  predicate Separates(c: char) {
    c == '\"' || c == ' ' || c == '\r' || c == '\n'
  }

  ghost predicate Within(spans: seq<Span>, i: int) {
    exists k :: 0 <= k < |spans| && spans[k].start <= i < spans[k].end
  }

  /** From `p` on the tokens come one after the other, each has the shape of one, and every character that is neither a
      quote nor a blank, return or newline is in one. */
  ghost predicate Tokenizes(s: string, spans: seq<Span>, p: nat) {
    && (forall k {:trigger spans[k]} :: 0 <= k < |spans| ==> p <= spans[k].start && Shaped(s, spans[k]))
    && (forall k, l {:trigger spans[k], spans[l]} :: 0 <= k < l < |spans| ==> spans[k].end < spans[l].start)
    && (forall i {:trigger s[i]} :: p <= i < |s| ==> Separates(s[i]) || Within(spans, i))
  }

  lemma TokenizesCons(s: string, sp: Span, spans: seq<Span>, p: nat)
    requires Shaped(s, sp) && p <= sp.start && Tokenizes(s, spans, Beyond(s, sp.end))
    requires forall i :: p <= i < sp.start ==> Separates(s[i])
    requires sp.end < |s| ==> Separates(s[sp.end])
    ensures Tokenizes(s, [sp] + spans, p)
  {
    hide Shaped, Separates;
    var all := [sp] + spans;
    ShapedSpan(s, sp);
    forall k {:trigger all[k]} | 0 <= k < |all|
      ensures p <= all[k].start && Shaped(s, all[k]) && (k > 0 ==> sp.end < all[k].start)
    {
      ShapedSpan(s, all[k]);
    }
    forall i {:trigger s[i]} | p <= i < |s| ensures Separates(s[i]) || Within(all, i) {
      if sp.start <= i < sp.end {
        assert all[0].start <= i < all[0].end;
      } else if i > sp.end && Within(spans, i) {
        var k :| 0 <= k < |spans| && spans[k].start <= i < spans[k].end;
        assert all[k + 1].start <= i < all[k + 1].end;
      }
    }
  }

  lemma ShapedSpan(s: string, sp: Span)
    requires Shaped(s, sp)
    ensures sp.start < sp.end <= |s|
  {
  }

  /** The tokens of any line, from any position on. */
  lemma {:induction false} ParseTokenizes(s: string, p: nat)
    requires p <= |s|
    ensures var r := Parse(s, p); r.Tokens? ==> Tokenizes(s, r.spans, p)
    decreases |s| - p
  {
    hide Tokenizes, Shaped, Parse, Skip, Until, Separates;
    var a := Skip(s, p, DELIMITERS);
    ParsePastDelimiters(s, p);
    AllSeparate(s, p, a, DELIMITERS);
    if a == |s| {
      NoTokens(s, p);
    } else if s[a] == '\"' {
      var b, t := Skip(s, a, QUOTES), Until(s, Skip(s, a, QUOTES), QUOTES);
      ParseAtQuote(s, a);
      AllSeparate(s, a, b, QUOTES);
      if b == |s| {
        NoTokens(s, p);
      } else {
        QuotedShape(s, b, t);
        ParseTokenizes(s, Beyond(s, t));
        ConsTokens(s, p, Span(b, t));
      }
    } else {
      var t := Until(s, a, DELIMITERS);
      PlainShape(s, a, t);
      ParseTokenizes(s, Beyond(s, t));
      ConsTokens(s, p, Span(a, t));
    }
  }

  lemma AllSeparate(s: string, p: nat, q: nat, d: set<char>)
    requires p <= q <= |s| && (d == DELIMITERS || d == QUOTES) && forall i :: p <= i < q ==> s[i] in d
    ensures forall i :: p <= i < q ==> Separates(s[i])
  {
  }

  /** What is read at a quote. */
  lemma ParseAtQuote(s: string, a: nat)
    requires a < |s| && s[a] == '\"'
    ensures var b, t := Skip(s, a, QUOTES), Until(s, Skip(s, a, QUOTES), QUOTES);
      && a < b && (b < |s| ==> b < t && s[b - 1] == '\"')
      && (Parse(s, a) == Invalid
          || Parse(s, a) == if b == |s| then Tokens([]) else Prepend([Span(b, t)], Parse(s, Beyond(s, t))))
  {
    SkipIs(s, a, a, DELIMITERS);
  }

  lemma ConsTokens(s: string, p: nat, sp: Span)
    requires Shaped(s, sp) && p <= sp.start < sp.end <= |s|
    requires forall i :: p <= i < sp.start ==> Separates(s[i])
    requires sp.end < |s| ==> Separates(s[sp.end])
    requires var r := Parse(s, Beyond(s, sp.end)); r.Tokens? ==> Tokenizes(s, r.spans, Beyond(s, sp.end))
    ensures var r := Prepend([sp], Parse(s, Beyond(s, sp.end))); r.Tokens? ==> Tokenizes(s, r.spans, p)
  {
    hide Parse, Tokenizes, Shaped, Separates;
    var r := Parse(s, Beyond(s, sp.end));
    if r.Tokens? {
      TokenizesCons(s, sp, r.spans, p);
    }
  }

  lemma NoTokens(s: string, p: nat)
    requires p <= |s| && forall i :: p <= i < |s| ==> Separates(s[i])
    ensures Tokenizes(s, [], p)
  {
  }

  lemma QuotedShape(s: string, b: nat, t: nat)
    requires 0 < b < t <= |s| && s[b - 1] == '\"' && (t < |s| ==> s[t] in QUOTES)
    requires forall i :: b <= i < t ==> s[i] !in QUOTES
    ensures Shaped(s, Span(b, t)) && (t < |s| ==> Separates(s[t]))
  {
  }

  lemma PlainShape(s: string, a: nat, t: nat)
    requires a < t <= |s| && (t < |s| ==> s[t] in DELIMITERS) && forall i :: a <= i < t ==> s[i] !in DELIMITERS
    ensures Shaped(s, Span(a, t)) && (t < |s| ==> Separates(s[t]))
  {
  }

  // ----- the console's array

  const ARGUMENTS := 20 // entries of myargev
  const LINE := 255 // characters of strBuffer, without the terminator

  /** `n` one-letter words. */
  function Letters(n: nat): seq<Word> {
    seq(n, _ => Word("a", false))
  }

  /** The console's array is too short for some of the lines it takes: twenty-one letters, and any more of them that
      the line has room for, make it write past the end, and twenty do not. */
  lemma LettersOverrunIff(n: nat)
    ensures Slots(Print(Letters(n)), 0) > ARGUMENTS <==> n > 20
    ensures |Print(Letters(n))| <= LINE <==> n <= 128
  {
    hide Slots, Print;
    LettersSeparated(n);
    TokenizeUndoesPrint("", Letters(n), Blanks(n));
    assert "" + Print(Letters(n)) == Print(Letters(n)) == Spread(Letters(n), Blanks(n)) by { PrintIs(Letters(n)); }
    LettersLength(n);
  }

  lemma PrintIs(ws: seq<Word>)
    ensures Print(ws) == Spread(ws, Blanks(|ws|))
  {
  }

  lemma LettersSeparated(n: nat)
    ensures Separated(Letters(n), Blanks(n), "")
  {
  }

  lemma {:induction false} LettersLength(n: nat)
    ensures |Print(Letters(n))| == if n == 0 then 0 else 2 * n - 1
  {
    if n > 0 {
      LettersLength(n - 1);
      assert Letters(n)[1..] == Letters(n - 1) && Blanks(n)[1..] == Blanks(n - 1);
    }
  }

  /** Some line of each length over forty overruns the console's array. */
  lemma LongLine(n: nat) returns (s: string)
    requires n > 40
    ensures |s| == n && CString(s) && Slots(s, 0) > ARGUMENTS
  {
    hide Slots, Print, CString, Spread, Separated;
    var ws := Letters(21);
    LettersLength(21);
    LettersSeparated(21);
    PrintIs(ws);
    var lead := seq(n - 41, _ => ' ');
    s := lead + Print(ws);
    TokenizeUndoesPrint(lead, ws, Blanks(21));
    SpreadIsCString(ws, Blanks(21));
    GapIsCString(lead);
    BothCStrings(lead, Print(ws));
  }

  /** Every line of `n` characters fits the console's array if and only if `n` is at most forty. */
  lemma LinesFitIff(n: nat)
    ensures n <= 40 <==> forall s: string :: CString(s) && |s| == n ==> Slots(s, 0) <= ARGUMENTS
  {
    hide Slots, CString;
    if n <= 40 {
      forall s: string | CString(s) && |s| == n ensures Slots(s, 0) <= ARGUMENTS {
        SlotsFit(s, 0);
      }
    } else {
      var s := LongLine(n);
    }
  }
}
