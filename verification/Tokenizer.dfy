/** The browser's HTML tokenizer: part of section 13.2.5 of the HTML Standard. */
module Tokenizer {

  datatype State = Data | TagOpen | EndTagOpen | TagName | SelfClosingStartTag

  /** A character, or a start or end tag. */
  datatype Token = Char(data: char) | Tag(isEnd: bool, name: string, selfClosing: bool)

  /** The token list, or that a tag name did not fit its 20 bytes. */
  datatype Outcome = Tokens(tokens: seq<Token>) | Overrun

  predicate IsUpper(c: char) { 'A' <= c <= 'Z' }

  predicate IsAlpha(c: char) { 'a' <= c <= 'z' || IsUpper(c) }

  function Lower(c: char): char { if IsUpper(c) then (c as int + 0x20) as char else c }

  function Newline(c: char): char { if c == '\r' then '\n' else c }

  /** In the states that touch the current token it is a tag. */
  predicate Ready(st: State, ts: seq<Token>) {
    st == TagName || st == SelfClosingStartTag ==> ts != [] && ts[|ts| - 1].Tag?
  }

  // States that may look at a character again come above those they switch to.
  function Rank(st: State): nat { if st == TagOpen || st == EndTagOpen then 1 else 0 }

  function Init(ts: seq<Token>): seq<Token>
    requires ts != []
  {
    ts[..|ts| - 1]
  }

  function Current(ts: seq<Token>): Token
    requires ts != []
  {
    ts[|ts| - 1]
  }

  /** What the tokenizer makes of the rest of its input. */
  function Scan(s: string, st: State, ts: seq<Token>): Outcome
    requires Ready(st, ts)
    decreases |s|, Rank(st)
  {
    if s == [] then Tokens(ts)
    else
      var c := Newline(s[0]);
      match st
      case Data =>
        if c == '<' then Scan(s[1..], TagOpen, ts) else Scan(s[1..], Data, ts + [Char(c)])
      case TagOpen =>
        if c == '/' then Scan(s[1..], EndTagOpen, ts)
        else if IsAlpha(c) then Scan(s, TagName, ts + [Tag(false, "", false)])
        else Scan(s, Data, ts + [Char('<')])
      case EndTagOpen =>
        if IsAlpha(c) then Scan(s, TagName, ts + [Tag(true, "", false)]) else Scan(s[1..], EndTagOpen, ts)
      case TagName =>
        if c == '/' then Scan(s[1..], SelfClosingStartTag, ts)
        else if c == '>' then Scan(s[1..], Data, ts)
        else
          var t := Current(ts);
          if |t.name| >= 19 then Overrun
          else Scan(s[1..], TagName, Init(ts) + [t.(name := t.name + [Lower(c)])])
      case SelfClosingStartTag =>
        if c == '>' then Scan(s[1..], Data, Init(ts) + [Current(ts).(selfClosing := true)])
        else Scan(s[1..], SelfClosingStartTag, ts)
  }

  /** `Tokenize` on a string without NUL. */
  function Tokenized(s: string): Outcome { Scan(s, Data, []) }

  function Chars(s: string): seq<Token> { seq(|s|, i requires 0 <= i < |s| => Char(Newline(s[i]))) }

  /** Text without `<` becomes its characters, with carriage returns as line feeds. */
  lemma {:induction false} PlainText(s: string, ts: seq<Token>)
    requires '<' !in s
    ensures Scan(s, Data, ts) == Tokens(ts + Chars(s))
  {
    if s == "" {
      assert ts + Chars(s) == ts;
    } else {
      assert s[0] in s;
      PlainText(s[1..], ts + [Char(Newline(s[0]))]);
      assert ts + [Char(Newline(s[0]))] + Chars(s[1..]) == ts + Chars(s);
    }
  }

  /** The same by code points: what is not `<` is a character token, CR as LF. */
  lemma TextReads(s: string, n: string)
    requires '<' !in s && |n| == |s| && forall i | 0 <= i < |s| :: n[i] == if s[i] == 13 as char then 10 as char else s[i]
    ensures Tokenized(s) == Tokens(seq(|n|, i requires 0 <= i < |n| => Char(n[i])))
  {
    PlainText(s, []);
    assert [] + Chars(s) == seq(|n|, i requires 0 <= i < |n| => Char(n[i]));
  }

  /** `n` is the name made of `w`: letters `A` to `Z` with 0x20 added, CR as LF. */
  predicate NameOf(w: string, n: string) {
    && |n| == |w|
    && forall i | 0 <= i < |w| ::
         && w[i] != '/' && w[i] != '>'
         && n[i] as int == if 65 <= w[i] as int <= 90 then w[i] as int + 0x20 else if w[i] as int == 13 then 10 else w[i] as int
  }

  // ----- Printing -----

  function Text(t: Token): string {
    match t
    case Char(c) => [c]
    case Tag(isEnd, name, selfClosing) =>
      (if isEnd then "</" else "<") + (name + if selfClosing then "/>" else ">")
  }

  function Join(ws: seq<string>): string { if ws == [] then "" else ws[0] + Join(ws[1..]) }

  function Texts(ts: seq<Token>): seq<string> { seq(|ts|, i requires 0 <= i < |ts| => Text(ts[i])) }

  function Print(ts: seq<Token>): string { Join(Texts(ts)) }

  predicate NameChar(c: char) { c != '/' && c != '>' && !IsUpper(c) && c != '\r' && c != '\0' }

  predicate TokenOk(t: Token) {
    match t
    case Char(c) => c != '\r' && c != '\0'
    case Tag(_, name, _) => name != "" && 'a' <= name[0] <= 'z' && forall i | 0 <= i < |name| :: NameChar(name[i])
  }

  predicate Short(t: Token) { t.Tag? ==> |t.name| < 20 }

  /** `c` after a `<` does not start a tag. */
  predicate AfterLess(c: char) { !IsAlpha(c) && c != '/' }

  /** A `<` that is a character stands before something that does not make it a tag. */
  predicate LinkOk(ts: seq<Token>, i: nat)
    requires i < |ts|
  {
    ts[i] == Char('<') && i + 1 < |ts| && ts[i + 1].Char? ==> AfterLess(ts[i + 1].data)
  }

  predicate Printable(ts: seq<Token>) {
    && (forall i | 0 <= i < |ts| :: TokenOk(ts[i]))
    && (forall i | 0 <= i < |ts| :: LinkOk(ts, i))
  }

  predicate EndsInLess(ts: seq<Token>) { ts != [] && ts[|ts| - 1] == Char('<') }

  // ----- Printed tokens read back -----

  lemma {:induction false} NameReads(w: string, rest: string, ts: seq<Token>, isEnd: bool, name: string)
    requires (forall i | 0 <= i < |w| :: NameChar(w[i])) && |name + w| < 20
    ensures Scan(w + rest, TagName, ts + [Tag(isEnd, name, false)]) ==
            Scan(rest, TagName, ts + [Tag(isEnd, name + w, false)])
    decreases |w|
  {
    if w == "" {
      assert w + rest == rest && name + w == name;
    } else {
      var s, us := w + rest, ts + [Tag(isEnd, name, false)];
      assert s[1..] == w[1..] + rest && s[0] == w[0];
      assert Init(us) == ts;
      NameReads(w[1..], rest, ts, isEnd, name + [w[0]]);
      assert name + [w[0]] + w[1..] == name + w;
    }
  }

  /** The end of a tag. */
  lemma TagCloses(selfClosing: bool, rest: string, ts: seq<Token>, isEnd: bool, name: string)
    ensures Scan((if selfClosing then "/>" else ">") + rest, TagName, ts + [Tag(isEnd, name, false)]) ==
            Scan(rest, Data, ts + [Tag(isEnd, name, selfClosing)])
  {
    var us := ts + [Tag(isEnd, name, false)];
    assert Init(us) == ts;
    if selfClosing {
      var s := "/>" + rest;
      assert s[1..] == ">" + rest && s[1..][1..] == rest;
    } else {
      assert (">" + rest)[1..] == rest;
    }
  }

  /** The start of a tag, up to its name. */
  lemma TagOpens(isEnd: bool, w: string, ts: seq<Token>)
    requires w != "" && IsAlpha(w[0])
    ensures Scan((if isEnd then "</" else "<") + w, Data, ts) == Scan(w, TagName, ts + [Tag(isEnd, "", false)])
  {
    if isEnd {
      var s := "</" + w;
      assert s[1..] == "/" + w && s[1..][1..] == w;
      assert Scan(s, Data, ts) == Scan("/" + w, TagOpen, ts) == Scan(w, EndTagOpen, ts);
    } else {
      assert ("<" + w)[1..] == w;
    }
  }

  lemma TagReads(t: Token, rest: string, ts: seq<Token>)
    requires t.Tag? && TokenOk(t) && Short(t)
    ensures Scan(Text(t) + rest, Data, ts) == Scan(rest, Data, ts + [t])
  {
    var tail := (if t.selfClosing then "/>" else ">") + rest;
    assert Text(t) + rest == (if t.isEnd then "</" else "<") + (t.name + tail);
    TagOpens(t.isEnd, t.name + tail, ts);
    NameReads(t.name, tail, ts, t.isEnd, "");
    assert "" + t.name == t.name;
    TagCloses(t.selfClosing, rest, ts, t.isEnd, t.name);
  }

  lemma {:induction false} AnyNameReads(w: string, n: string, rest: string, ts: seq<Token>, isEnd: bool, name: string)
    requires NameOf(w, n) && |name + w| < 20
    ensures Scan(w + rest, TagName, ts + [Tag(isEnd, name, false)]) ==
            Scan(rest, TagName, ts + [Tag(isEnd, name + n, false)])
    decreases |w|
  {
    if w == "" {
      assert w + rest == rest && name + n == name;
    } else {
      var s, us := w + rest, ts + [Tag(isEnd, name, false)];
      assert s[1..] == w[1..] + rest && s[0] == w[0];
      assert Init(us) == ts && Lower(Newline(w[0])) == n[0];
      AnyNameReads(w[1..], n[1..], rest, ts, isEnd, name + [n[0]]);
      assert name + [n[0]] + n[1..] == name + n;
    }
  }

  /** A tag with letters of either case reads as the tag with the lower-case name. */
  lemma AnyTagReads(w: string, n: string, rest: string, ts: seq<Token>, isEnd: bool, selfClosing: bool)
    requires NameOf(w, n) && 0 < |w| < 20 && (65 <= w[0] as int <= 90 || 97 <= w[0] as int <= 122)
    ensures Scan((if isEnd then "</" else "<") + (w + ((if selfClosing then "/>" else ">") + rest)), Data, ts) ==
            Scan(rest, Data, ts + [Tag(isEnd, n, selfClosing)])
  {
    var tail := (if selfClosing then "/>" else ">") + rest;
    TagOpens(isEnd, w + tail, ts);
    assert "" + w == w && "" + n == n;
    AnyNameReads(w, n, tail, ts, isEnd, "");
    TagCloses(selfClosing, rest, ts, isEnd, n);
  }

  // ----- Malformed tags -----

  /** After `</` everything up to the next letter is skipped, `>` included. */
  lemma {:induction false} SkipsToLetter(w: string, rest: string, ts: seq<Token>)
    requires forall i | 0 <= i < |w| :: !(65 <= w[i] as int <= 90 || 97 <= w[i] as int <= 122)
    ensures Scan(w + rest, EndTagOpen, ts) == Scan(rest, EndTagOpen, ts)
    decreases |w|
  {
    if w == "" {
      assert w + rest == rest;
    } else {
      assert (w + rest)[1..] == w[1..] + rest && (w + rest)[0] == w[0];
      SkipsToLetter(w[1..], rest, ts);
    }
  }

  lemma BadEndTag(w: string, rest: string, ts: seq<Token>)
    requires forall i | 0 <= i < |w| :: !(65 <= w[i] as int <= 90 || 97 <= w[i] as int <= 122)
    ensures Scan("</" + (w + rest), Data, ts) == Scan("</" + rest, Data, ts)
  {
    EndTagStarts(w + rest, ts);
    EndTagStarts(rest, ts);
    SkipsToLetter(w, rest, ts);
  }

  lemma EndTagStarts(s: string, ts: seq<Token>)
    ensures Scan("</" + s, Data, ts) == Scan(s, EndTagOpen, ts)
  {
    var t := "</" + s;
    assert t[1..] == "/" + s && t[1..][1..] == s;
    assert Scan(t, Data, ts) == Scan("/" + s, TagOpen, ts) == Scan(s, EndTagOpen, ts);
  }

  /** After `/` in a tag everything up to `>` is skipped, and the tag closes itself. */
  lemma {:induction false} SkipsToClose(w: string, rest: string, ts: seq<Token>, isEnd: bool, name: string)
    requires '>' !in w
    ensures Scan("/" + (w + (">" + rest)), TagName, ts + [Tag(isEnd, name, false)]) ==
            Scan(rest, Data, ts + [Tag(isEnd, name, true)])
  {
    var s, us := w + (">" + rest), ts + [Tag(isEnd, name, false)];
    assert ("/" + s)[1..] == s && Init(us) == ts;
    SkipsToMark(w, rest, us);
  }

  lemma {:induction false} SkipsToMark(w: string, rest: string, us: seq<Token>)
    requires '>' !in w && us != [] && us[|us| - 1].Tag?
    ensures Scan(w + (">" + rest), SelfClosingStartTag, us) ==
            Scan(rest, Data, Init(us) + [us[|us| - 1].(selfClosing := true)])
    decreases |w|
  {
    var s := w + (">" + rest);
    if w == "" {
      assert s == ">" + rest && s[1..] == rest;
    } else {
      assert w[0] in w && s[0] == w[0] && s[1..] == w[1..] + (">" + rest);
      SkipsToMark(w[1..], rest, us);
    }
  }

  /** A tag that the input ends in is kept with the name read so far. */
  lemma OpenTagKept(w: string, n: string, ts: seq<Token>, isEnd: bool)
    requires NameOf(w, n) && 0 < |w| < 20 && (65 <= w[0] as int <= 90 || 97 <= w[0] as int <= 122)
    ensures Scan((if isEnd then "</" else "<") + w, Data, ts) == Tokens(ts + [Tag(isEnd, n, false)])
  {
    TagOpens(isEnd, w, ts);
    assert "" + w == w && "" + n == n && w + "" == w;
    AnyNameReads(w, n, "", ts, isEnd, "");
  }

  lemma CharReads(c: char, rest: string, ts: seq<Token>)
    requires c != '\r' && (c == '<' ==> rest != "" && AfterLess(rest[0]))
    ensures Scan([c] + rest, Data, ts) == Scan(rest, Data, ts + [Char(c)])
  {
    assert ([c] + rest)[1..] == rest;
  }

  lemma TokenReads(t: Token, more: string, before: seq<Token>)
    requires TokenOk(t) && Short(t) && (t == Char('<') ==> more != "" && AfterLess(more[0]))
    ensures Scan(Text(t) + more, Data, before) == Scan(more, Data, before + [t])
  {
    if t.Tag? {
      TagReads(t, more, before);
    } else {
      CharReads(t.data, more, before);
    }
  }

  /** What remains to be read from piece `k` on. */
  function Tail(ws: seq<string>, k: nat, rest: string): string
    requires k <= |ws|
  {
    Join(ws[k..]) + rest
  }

  lemma TailStep(ws: seq<string>, k: nat, rest: string)
    requires k < |ws|
    ensures Tail(ws, k, rest) == ws[k] + Tail(ws, k + 1, rest)
  {
    assert ws[k..][1..] == ws[k + 1..];
  }

  lemma TailStarts(ws: seq<string>, k: nat, rest: string)
    requires k < |ws| && ws[k] != ""
    ensures var s := Tail(ws, k, rest); s != "" && s[0] == ws[k][0]
  {
    TailStep(ws, k, rest);
  }

  /** Piece `k` reads as token `k`. */
  ghost predicate PieceReads(scan: (string, seq<Token>) -> Outcome, ws: seq<string>, ts: seq<Token>, rest: string, k: nat)
    requires k < |ws| == |ts|
  {
    forall before :: scan(Tail(ws, k, rest), before) == scan(Tail(ws, k + 1, rest), before + [ts[k]])
  }

  lemma {:induction false} PiecesRead(scan: (string, seq<Token>) -> Outcome, ws: seq<string>, ts: seq<Token>, rest: string, k: nat,
                                      before: seq<Token>)
    requires k <= |ws| == |ts| && forall i | 0 <= i < |ws| :: PieceReads(scan, ws, ts, rest, i)
    ensures scan(Tail(ws, k, rest), before) == scan(rest, before + ts[k..])
    decreases |ws| - k
  {
    if k == |ws| {
      assert Tail(ws, k, rest) == rest && before + ts[k..] == before;
    } else {
      assert PieceReads(scan, ws, ts, rest, k);
      PiecesRead(scan, ws, ts, rest, k + 1, before + [ts[k]]);
      assert before + [ts[k]] + ts[k + 1..] == before + ts[k..];
    }
  }

  function Scanner(): (string, seq<Token>) -> Outcome { (s, ts) => Scan(s, Data, ts) }

  /** After a printed `<` comes what does not turn it into a tag. */
  lemma AfterPiece(ts: seq<Token>, rest: string, k: nat)
    requires k < |ts| && LinkOk(ts, k) && ts[k] == Char('<') && (k == |ts| - 1 ==> rest != "" && AfterLess(rest[0]))
    ensures var more := Tail(Texts(ts), k + 1, rest); more != "" && AfterLess(more[0])
  {
    if k + 1 < |ts| {
      TailStarts(Texts(ts), k + 1, rest);
    } else {
      assert Tail(Texts(ts), k + 1, rest) == rest;
    }
  }

  lemma PrintedPieceReads(ts: seq<Token>, rest: string, k: nat)
    requires k < |ts| && TokenOk(ts[k]) && Short(ts[k]) && LinkOk(ts, k)
    requires k == |ts| - 1 && ts[k] == Char('<') ==> rest != "" && AfterLess(rest[0])
    ensures PieceReads(Scanner(), Texts(ts), ts, rest, k)
  {
    var more := Tail(Texts(ts), k + 1, rest);
    TailStep(Texts(ts), k, rest);
    if ts[k] == Char('<') {
      AfterPiece(ts, rest, k);
    }
    forall before ensures Scan(Text(ts[k]) + more, Data, before) == Scan(more, Data, before + [ts[k]]) {
      TokenReads(ts[k], more, before);
    }
  }

  /** Printed tokens read back, whatever follows that does not turn a last `<` into a tag. */
  lemma PrintReads(ts: seq<Token>, rest: string)
    requires Printable(ts) && (forall i | 0 <= i < |ts| :: Short(ts[i]))
    requires EndsInLess(ts) ==> rest != "" && AfterLess(rest[0])
    ensures Tokenized(Print(ts) + rest) == Scan(rest, Data, ts)
  {
    forall k | 0 <= k < |ts| ensures PieceReads(Scanner(), Texts(ts), ts, rest, k) {
      PrintedPieceReads(ts, rest, k);
    }
    PiecesRead(Scanner(), Texts(ts), ts, rest, 0, []);
    assert Texts(ts)[0..] == Texts(ts) && [] + ts[0..] == ts;
  }

  /** Every list of printable tokens with names under 20 bytes that does not end in `<` reads
      back as it was printed. */
  lemma RoundTrip(ts: seq<Token>)
    requires Printable(ts) && (forall i | 0 <= i < |ts| :: Short(ts[i])) && !EndsInLess(ts)
    ensures Tokenized(Print(ts)) == Tokens(ts)
  {
    PrintReads(ts, "");
    assert Print(ts) + "" == Print(ts);
  }

  // ----- What the tokenizer produces -----

  /** The tokens so far, of which the last may be a tag whose name is about to start. */
  ghost predicate Inv(s: string, st: State, ts: seq<Token>) {
    && Ready(st, ts)
    && '\0' !in s
    && (forall i | 0 <= i < |ts| :: LinkOk(ts, i))
    && (forall i | 0 <= i < |ts| :: Short(ts[i]))
    && (forall i | 0 <= i < |ts| - 1 :: TokenOk(ts[i]))
    && (ts != [] ==> TokenOk(Current(ts)) || (st == TagName && Unnamed(s, Current(ts))))
    && (st == Data && EndsInLess(ts) ==> s != "" && AfterLess(s[0]))
  }

  ghost predicate Unnamed(s: string, t: Token) { t.Tag? && t.name == "" && s != "" && IsAlpha(s[0]) }

  lemma Appended(ts: seq<Token>, t: Token)
    requires forall i | 0 <= i < |ts| :: LinkOk(ts, i)
    requires EndsInLess(ts) && t.Char? ==> AfterLess(t.data)
    ensures forall i | 0 <= i < |ts + [t]| :: LinkOk(ts + [t], i)
  {
    var us := ts + [t];
    forall i | 0 <= i < |us| ensures LinkOk(us, i) {
      assert i < |ts| ==> LinkOk(ts, i);
    }
  }

  lemma Replaced(ts: seq<Token>, t: Token)
    requires ts != [] && Current(ts).Tag? && t.Tag? && forall i | 0 <= i < |ts| :: LinkOk(ts, i)
    ensures forall i | 0 <= i < |ts| :: LinkOk(Init(ts) + [t], i)
  {
    var us := Init(ts) + [t];
    forall i | 0 <= i < |us| ensures LinkOk(us, i) {
      assert LinkOk(ts, i);
    }
  }

  lemma NameGrows(s: string, ts: seq<Token>)
    requires s != "" && Inv(s, TagName, ts) && |Current(ts).name| < 19
    requires var c := Newline(s[0]); c != '/' && c != '>'
    ensures var t := Current(ts); Inv(s[1..], TagName, Init(ts) + [t.(name := t.name + [Lower(Newline(s[0]))])])
  {
    var t, c := Current(ts), Newline(s[0]);
    var u := t.(name := t.name + [Lower(c)]);
    Replaced(ts, u);
    assert s[0] in s;
    assert NameChar(Lower(c));
    assert TokenOk(u);
  }

  lemma TagStarts(s: string, st: State, ts: seq<Token>, isEnd: bool)
    requires s != "" && IsAlpha(s[0]) && (st == TagOpen || st == EndTagOpen) && Inv(s, st, ts)
    ensures Inv(s, TagName, ts + [Tag(isEnd, "", false)])
  {
    Appended(ts, Tag(isEnd, "", false));
  }

  lemma CharStarts(s: string, ts: seq<Token>)
    requires s != "" && s[0] != '<' && Inv(s, Data, ts)
    ensures Inv(s[1..], Data, ts + [Char(Newline(s[0]))])
  {
    assert s[0] in s;
    Appended(ts, Char(Newline(s[0])));
  }

  lemma LessStarts(s: string, ts: seq<Token>)
    requires s != "" && AfterLess(s[0]) && Inv(s, TagOpen, ts)
    ensures Inv(s, Data, ts + [Char('<')])
  {
    Appended(ts, Char('<'));
  }

  lemma TagEnds(s: string, ts: seq<Token>)
    requires s != "" && s[0] == '>' && Inv(s, SelfClosingStartTag, ts)
    ensures Inv(s[1..], Data, Init(ts) + [Current(ts).(selfClosing := true)])
  {
    Replaced(ts, Current(ts).(selfClosing := true));
  }

  /** Every step keeps the invariant, so the list at the end can be printed. */
  lemma {:induction false} Produces(s: string, st: State, ts: seq<Token>)
    requires Inv(s, st, ts)
    ensures Scan(s, st, ts).Tokens? ==>
              var r := Scan(s, st, ts).tokens; Printable(r) && forall i | 0 <= i < |r| :: Short(r[i])
    decreases |s|, Rank(st)
  {
    if s != "" {
      var c := Newline(s[0]);
      match st {
        case Data =>
          if c == '<' {
            Produces(s[1..], TagOpen, ts);
          } else {
            CharStarts(s, ts);
            Produces(s[1..], Data, ts + [Char(c)]);
          }
        case TagOpen =>
          if c == '/' {
            Produces(s[1..], EndTagOpen, ts);
          } else if IsAlpha(c) {
            TagStarts(s, st, ts, false);
            Produces(s, TagName, ts + [Tag(false, "", false)]);
          } else {
            LessStarts(s, ts);
            Produces(s, Data, ts + [Char('<')]);
          }
        case EndTagOpen =>
          if IsAlpha(c) {
            TagStarts(s, st, ts, true);
            Produces(s, TagName, ts + [Tag(true, "", false)]);
          } else {
            Produces(s[1..], EndTagOpen, ts);
          }
        case TagName =>
          if c == '/' {
            Produces(s[1..], SelfClosingStartTag, ts);
          } else if c == '>' {
            Produces(s[1..], Data, ts);
          } else if |Current(ts).name| < 19 {
            NameGrows(s, ts);
            var t := Current(ts);
            Produces(s[1..], TagName, Init(ts) + [t.(name := t.name + [Lower(c)])]);
          }
        case SelfClosingStartTag =>
          if c == '>' {
            TagEnds(s, ts);
            Produces(s[1..], Data, Init(ts) + [Current(ts).(selfClosing := true)]);
          } else {
            Produces(s[1..], SelfClosingStartTag, ts);
          }
      }
    }
  }

  /** Whatever the input, the tokens can be printed, and what is printed reads back as the same
      tokens exactly when the list does not end in the character `<`. */
  lemma PrintedAgain(s: string)
    requires '\0' !in s && Tokenized(s).Tokens?
    ensures var ts := Tokenized(s).tokens;
            Printable(ts) && (Tokenized(Print(ts)) == Tokens(ts) <==> !EndsInLess(ts))
  {
    Produces(s, Data, []);
    var ts := Tokenized(s).tokens;
    if EndsInLess(ts) {
      LessIsLost(ts);
    } else {
      RoundTrip(ts);
    }
  }

  /** A `<` at the very end is dropped. */
  lemma LessIsLost(ts: seq<Token>)
    requires Printable(ts) && (forall i | 0 <= i < |ts| :: Short(ts[i])) && EndsInLess(ts)
    ensures Tokenized(Print(ts)) == Tokens(Init(ts))
  {
    forall i | 0 <= i < |Init(ts)| ensures LinkOk(Init(ts), i) { assert LinkOk(ts, i); }
    assert ts == Init(ts) + [Char('<')];
    LastLessIsLost(Init(ts));
  }

  lemma LastLessIsLost(init: seq<Token>)
    requires Printable(init) && forall i | 0 <= i < |init| :: Short(init[i])
    ensures Tokenized(Print(init + [Char('<')])) == Tokens(init)
  {
    PrintAppend(init, Char('<'));
    PrintReads(init, "<");
    OpenAtEnd(init);
  }

  lemma OpenAtEnd(ts: seq<Token>)
    ensures Scan("<", Data, ts) == Tokens(ts)
  {
    assert "<"[1..] == "";
  }

  lemma {:induction false} JoinAppend(ws: seq<string>, w: string)
    ensures Join(ws + [w]) == Join(ws) + w
  {
    if ws == [] {
      assert [] + [w] == [w] && [w][1..] == [] && w + "" == w == "" + w;
    } else {
      assert (ws + [w])[1..] == ws[1..] + [w];
      JoinAppend(ws[1..], w);
    }
  }

  lemma PrintAppend(ts: seq<Token>, t: Token)
    ensures Print(ts + [t]) == Print(ts) + Text(t)
  {
    assert Texts(ts + [t]) == Texts(ts) + [Text(t)];
    JoinAppend(Texts(ts), Text(t));
  }

  /** Printable tokens print without NUL. */
  lemma PrintHasNoNul(ts: seq<Token>)
    requires forall i | 0 <= i < |ts| :: TokenOk(ts[i])
    ensures '\0' !in Print(ts)
  {
    forall i | 0 <= i < |ts| ensures '\0' !in Texts(ts)[i] {
      TextHasNoNul(ts[i]);
    }
    JoinHasNoNul(Texts(ts));
  }

  lemma TextHasNoNul(t: Token)
    requires TokenOk(t)
    ensures '\0' !in Text(t)
  {
    if t.Tag? {
      assert forall i | 0 <= i < |t.name| :: NameChar(t.name[i]);
      assert '\0' !in t.name;
    }
  }

  lemma {:induction false} JoinHasNoNul(ws: seq<string>)
    requires forall i | 0 <= i < |ws| :: '\0' !in ws[i]
    ensures '\0' !in Join(ws)
  {
    if ws != [] {
      JoinHasNoNul(ws[1..]);
    }
  }

  /** Where the string in a buffer ends. */
  function End(b: seq<char>): (n: nat)
    requires '\0' in b
    ensures n < |b| && b[n] == '\0' && '\0' !in b[..n]
  {
    if b[0] == '\0' then 0 else
      var n := End(b[1..]);
      assert b[..n + 1] == [b[0]] + b[1..][..n];
      n + 1
  }

  /** A string as it stands in memory: up to its first NUL. */
  function Stored(s: string): (r: string)
    ensures '\0' !in r && r <= s && ('\0' !in s ==> r == s)
  {
    var n := End(s + "\0");
    assert (s + "\0")[..n] == s[..n];
    s[..n]
  }

  /** Whatever the tokens, printed into memory they read back exactly when they are printable, no
      name has 20 bytes or more, and the list does not end in `<`. */
  lemma ReadsBackIff(ts: seq<Token>)
    ensures Tokenized(Stored(Print(ts))) == Tokens(ts) <==>
            Printable(ts) && (forall i | 0 <= i < |ts| :: Short(ts[i])) && !EndsInLess(ts)
  {
    var s := Print(ts);
    if Printable(ts) {
      PrintHasNoNul(ts);
    }
    if Tokenized(Stored(s)) == Tokens(ts) {
      Produces(Stored(s), Data, []);
      if EndsInLess(ts) {
        LessIsLost(ts);
      }
    } else if Printable(ts) && (forall i | 0 <= i < |ts| :: Short(ts[i])) && !EndsInLess(ts) {
      RoundTrip(ts);
    }
  }

  // ----- The loop -----

  /** A character the tokenizer may have rewritten in place. */
  predicate Rewritten(c: char, d: char) { d == c || d == Newline(c) || d == Lower(c) }

  /** By code points: CR became LF, or a letter `A` to `Z` got 0x20 added, or nothing happened. */
  lemma RewrittenMeans(c: char, d: char)
    ensures Rewritten(c, d) <==>
            d == c || (c as int == 13 && d as int == 10) || (65 <= c as int <= 90 && d as int == c as int + 0x20)
  {
  }

  /** The buffer once the tokenizer stands at `p`: rewritten in front, at `p` at most the line
      end, untouched behind. */
  predicate RewrittenTo(was: seq<char>, now: seq<char>, p: nat) {
    && |was| == |now| && p < |was|
    && (forall i | 0 <= i < p :: Rewritten(was[i], now[i]))
    && (now[p] == was[p] || now[p] == Newline(was[p]))
    && (forall i | p < i < |was| :: now[i] == was[i])
  }

  /** What one look at the character `c`, at the start of `rest`, does: the next state and tokens,
      whether to go on to the next character, and what stands in the buffer then. */
  method Consume(c: char, st0: State, ts: seq<Token>, ghost rest: string)
    returns (ok: bool, st: State, tokens: seq<Token>, next: bool, d: char)
    requires Ready(st0, ts) && rest != "" && Newline(rest[0]) == c
    ensures ok ==> && Ready(st, tokens) && (next || Rank(st) < Rank(st0))
                   && Scan(rest, st0, ts) == Scan(if next then rest[1..] else rest, st, tokens)
    ensures !ok ==> Scan(rest, st0, ts) == Overrun && next
    ensures d == c || (next && d == Lower(c))
  {
    ok, st, tokens, next, d := true, st0, ts, true, c;
    match st0 {
      case Data =>
        if c == '<' {
          st := TagOpen;
        } else {
          tokens := ts + [Char(c)];
        }
      case TagOpen =>
        if c == '/' {
          st := EndTagOpen;
        } else if IsAlpha(c) {
          tokens, st, next := ts + [Tag(false, "", false)], TagName, false;
        } else {
          tokens, st, next := ts + [Char('<')], Data, false;
        }
      case EndTagOpen =>
        if IsAlpha(c) {
          tokens, st, next := ts + [Tag(true, "", false)], TagName, false;
        }
      case TagName =>
        if c == '/' {
          st := SelfClosingStartTag;
        } else if c == '>' {
          st := Data;
        } else {
          d := Lower(c);
          var t := Current(ts);
          ok := |t.name| < 19;
          if ok {
            tokens := Init(ts) + [t.(name := t.name + [d])];
          }
        }
      case SelfClosingStartTag =>
        if c == '>' {
          var t := ts[|ts| - 1];
          tokens := Init(ts) + [t.(selfClosing := true)];
          st := Data;
        }
    }
  }

  /** `Tokenize`. */
  method Tokenize(html: array<char>) returns (r: Outcome)
    requires '\0' in html[..]
    modifies html
    ensures r == Tokenized(old(html[..End(html[..])]))
    ensures forall i | 0 <= i < html.Length :: Rewritten(old(html[i]), html[i])
    ensures forall i | End(old(html[..])) <= i < html.Length :: html[i] == old(html[i])
  {
    var tokens: seq<Token> := [];
    var st, p := Data, 0;
    ghost var end := End(html[..]);
    ghost var s := html[..end];
    ghost var all := Tokenized(s);
    while html[p] != '\0'
      invariant 0 <= p <= end && s == old(html[..end]) && html[end] == '\0'
      invariant Ready(st, tokens) && Scan(s[p..], st, tokens) == all
      invariant RewrittenTo(old(html[..]), html[..], p)
      decreases end - p, Rank(st)
    {
      if html[p] == '\r' {
        html[p] := '\n';
      }
      var ok, next, d;
      ok, st, tokens, next, d := Consume(html[p], st, tokens, s[p..]);
      html[p] := d;
      if !ok {
        return Overrun;
      }
      if next {
        assert s[p..][1..] == s[p + 1..];
        p := p + 1;
      }
    }
    assert p == end && s[p..] == "";
    r := Tokens(tokens);
  }
}
