/**
 * Two scanners over one lexical rule. sourceForms collects the top-level forms of a source; the model
 * extractor follows flags to the end of the first "(model" form. Both are held against one state machine.
 */
module Scanners {

  import opened Options

  // ---------------------------------------------------------------- the lexical rule

  datatype Mode = Code | Quoted | Escaped | Comment

  datatype State = State(mode: Mode, depth: int)

  const START: State := State(Code, 0)

  function Step(st: State, c: char): State {
    match st.mode
    case Comment => if c == '\n' then st.(mode := Code) else st
    case Escaped => st.(mode := Quoted)
    case Quoted => if c == '\\' then st.(mode := Escaped) else if c == '"' then st.(mode := Code) else st
    case Code =>
      if c == ';' then st.(mode := Comment)
      else if c == '"' then st.(mode := Quoted)
      else if c == '(' then st.(depth := st.depth + 1)
      else if c == ')' then st.(depth := st.depth - 1)
      else st
  }

  function Run(st: State, text: string): State {
    if text == "" then st else Step(Run(st, text[..|text| - 1]), text[|text| - 1])
  }

  /** A text opened by its first character and closed by its last one, never in between. */
  ghost predicate IsForm(text: string) {
    && |text| >= 2 && text[0] == '(' && Run(START, text) == START
    && forall k :: 0 < k < |text| ==> Run(START, text[..k]).depth > 0
  }

  /** Never more parentheses closed than opened. */
  ghost predicate NeverBelow(text: string) {
    forall k :: 0 <= k <= |text| ==> Run(START, text[..k]).depth >= 0
  }

  /** Everything opened is closed; a comment may run to the end. */
  ghost predicate Balanced(text: string) {
    NeverBelow(text) && Run(START, text).depth == 0 && Run(START, text).mode in {Code, Comment}
  }

  /**
   * The forms that a scan of the rest collects, when the form that is open so far reads as given; a scan
   * that closes too much collects nothing more.
   */
  function Collect(rest: string, st: State, open: string): seq<string>
    decreases |rest|
  {
    if rest == "" then []
    else
      var next := Step(st, rest[0]);
      var more := if st.depth > 0 || next.depth > 0 then open + [rest[0]] else "";
      if next.depth < 0 then []
      else if st.depth > 0 && next.depth == 0 then [more] + Collect(rest[1..], next, "")
      else Collect(rest[1..], next, more)
  }

  /** The top-level forms of a source. */
  function FormsOf(source: string): seq<string> {
    Collect(source, START, "")
  }

  lemma RunSnoc(st: State, text: string, c: char)
    ensures Run(st, text + [c]) == Step(Run(st, text), c)
  {
    assert (text + [c])[..|text|] == text;
  }

  lemma {:induction false} Stays(st: State, inside: State, first: char, body: string)
    requires Step(st, first) == inside && forall c <- body :: Step(inside, c) == inside
    ensures Run(st, [first] + body) == inside
  {
    if body == "" {
      assert [first] + body == [first] && [first][..0] == "";
      assert Run(st, "") == st;
    } else {
      var n := |body| - 1;
      assert ([first] + body)[..n + 1] == [first] + body[..n];
      Stays(st, inside, first, body[..n]);
      assert body[n] in body;
    }
  }

  /** Nothing counts in a string without quotes and backslashes. */
  lemma StringSkipped(st: State, body: string)
    requires st.mode == Code && forall c <- body :: c != '"' && c != '\\'
    ensures Run(st, ['"'] + body + ['"']) == st
  {
    Stays(st, st.(mode := Quoted), '"', body);
    RunSnoc(st, ['"'] + body, '"');
  }

  /** Nothing counts in a comment, which ends with its line. */
  lemma CommentSkipped(st: State, body: string)
    requires st.mode == Code && forall c <- body :: c != '\n'
    ensures Run(st, [';'] + body + ['\n']) == st
  {
    Stays(st, st.(mode := Comment), ';', body);
    RunSnoc(st, [';'] + body, '\n');
  }

  /** In a string a backslash takes the character behind it along, whatever that is. */
  lemma EscapeSkipped(st: State, c: char)
    requires st.mode == Quoted
    ensures Run(st, ['\\'] + [c]) == st
  {
    RunSnoc(st, [], '\\');
    assert [] + ['\\'] == ['\\'];
    RunSnoc(st, ['\\'], c);
  }

  /** Outside of strings and comments parentheses count, and nothing else does. */
  lemma CodeCounts(st: State, c: char)
    requires st.mode == Code && c != '"' && c != ';'
    ensures Run(st, [c]) == State(Code, st.depth + if c == '(' then 1 else if c == ')' then -1 else 0)
  {
    RunSnoc(st, [], c);
    assert [] + [c] == [c];
  }

  // ---------------------------------------------------------------- what is collected

  /** What is open while a form is being read. */
  ghost predicate Opened(st: State, open: string) {
    && st.depth >= 0
    && (st.depth == 0 ==> open == "")
    && (st.depth > 0 ==> open != "" && open[0] == '(' && Run(START, open) == st)
    && (forall k :: 0 < k <= |open| ==> Run(START, open[..k]).depth > 0)
  }

  lemma OpenedStep(st: State, open: string, c: char)
    requires Opened(st, open) && Step(st, c).depth > 0
    ensures Opened(Step(st, c), open + [c])
  {
    hide Run;
    RunEmpty();
    RunSnoc(START, open, c);
    var more := open + [c];
    if st.depth == 0 {
      OpensCode(st, c);
      assert more == "(" && c == '(';
    }
    forall k | 0 < k <= |more|
      ensures Run(START, more[..k]).depth > 0
    {
      if k <= |open| {
        assert more[..k] == open[..k];
      } else {
        assert more[..k] == more;
      }
    }
  }

  lemma RunEmpty()
    ensures Run(START, "") == START
  {
  }

  lemma OpensCode(st: State, c: char)
    requires st.depth == 0 && Step(st, c).depth > 0
    ensures c == '(' && st == START && Step(st, c) == State(Code, 1)
  {
  }

  lemma ClosesForm(st: State, open: string, c: char)
    requires Opened(st, open) && st.depth > 0 && Step(st, c).depth == 0
    ensures IsForm(open + [c])
  {
    hide Run;
    RunSnoc(START, open, c);
    var more := open + [c];
    forall k | 0 < k < |more|
      ensures Run(START, more[..k]).depth > 0
    {
      assert more[..k] == open[..k];
    }
  }

  /** Everything collected is a form. */
  lemma {:induction false} CollectedForms(rest: string, st: State, open: string)
    requires Opened(st, open)
    ensures forall f <- Collect(rest, st, open) :: IsForm(f)
    decreases |rest|
  {
    hide Run; hide IsForm;
    if rest == "" {
    } else {
      var next := Step(st, rest[0]);
      if next.depth > 0 {
        OpenedStep(st, open, rest[0]);
        CollectedForms(rest[1..], next, open + [rest[0]]);
      } else if next.depth == 0 {
        if st.depth > 0 {
          ClosesForm(st, open, rest[0]);
        }
        CollectedForms(rest[1..], next, "");
      }
    }
  }

  /** Reading the rest of a form. */
  lemma {:induction false} FormIsCollected(f: string, k: nat, rest: string)
    requires IsForm(f) && 0 < k <= |f|
    ensures k < |f| ==> Collect(f[k..] + rest, Run(START, f[..k]), f[..k]) == [f] + Collect(rest, START, "")
    decreases |f| - k
  {
    hide Run;
    if k >= |f| {
    } else {
      var text := f[k..] + rest;
      assert text[0] == f[k] && text[1..] == f[k + 1..] + rest;
      RunSnoc(START, f[..k], f[k]);
      assert f[..k] + [f[k]] == f[..k + 1];
      if k + 1 < |f| {
        FormIsCollected(f, k + 1, rest);
      } else {
        assert f[..k + 1] == f && text[1..] == rest;
      }
    }
  }

  /** A form at the start is collected first, and the scan goes on behind it as if it had begun there. */
  lemma LeadingForm(f: string, rest: string)
    requires IsForm(f)
    ensures FormsOf(f + rest) == [f] + FormsOf(rest)
  {
    var text := f + rest;
    assert text[0] == '(' && text[1..] == f[1..] + rest;
    assert f[..1] == "(" && f[..1][..0] == "" && "" + [text[0]] == f[..1];
    assert Run(START, f[..1]) == Step(START, '(') == State(Code, 1);
    FormIsCollected(f, 1, rest);
  }

  // ---------------------------------------------------------------- joining and scanning again

  const BLANK_LINE: string := "\n\n"

  function Join(forms: seq<string>): string {
    if forms == [] then "" else if |forms| == 1 then forms[0] else forms[0] + BLANK_LINE + Join(forms[1..])
  }

  lemma SkipsBlankLine(rest: string)
    ensures FormsOf(BLANK_LINE + rest) == FormsOf(rest)
  {
    var text := BLANK_LINE + rest;
    assert text[0] == '\n' && text[1..] == "\n" + rest && text[1..][1..] == rest;
    assert Collect(text, START, "") == Collect(text[1..], START, "");
  }

  /** Forms joined by blank lines are found again, each as it was and in the same order. */
  lemma {:induction false} JoinedForms(forms: seq<string>)
    requires forall f <- forms :: IsForm(f)
    ensures FormsOf(Join(forms)) == forms
  {
    hide IsForm;
    if forms == [] {
    } else {
      var f := forms[0];
      assert IsForm(f);
      JoinedForms(forms[1..]);
      if |forms| == 1 {
        LeadingForm(f, "");
        assert f + "" == f && Join(forms[1..]) == "";
      } else {
        LeadingForm(f, BLANK_LINE + Join(forms[1..]));
        assert f + BLANK_LINE + Join(forms[1..]) == f + (BLANK_LINE + Join(forms[1..]));
        SkipsBlankLine(Join(forms[1..]));
      }
      assert forms == [f] + forms[1..];
    }
  }

  lemma {:induction false} RunAppend(st: State, a: string, b: string)
    ensures Run(st, a + b) == Run(Run(st, a), b)
  {
    if b == "" {
      assert a + b == a;
    } else {
      var n := |b| - 1;
      assert (a + b)[..|a| + n] == a + b[..n];
      RunAppend(st, a, b[..n]);
    }
  }

  lemma NeverBelowAppend(a: string, b: string)
    requires NeverBelow(a) && Run(START, a) == START && NeverBelow(b)
    ensures NeverBelow(a + b)
  {
    hide Run;
    forall k | 0 <= k <= |a + b|
      ensures Run(START, (a + b)[..k]).depth >= 0
    {
      if k <= |a| {
        assert (a + b)[..k] == a[..k];
      } else {
        assert (a + b)[..k] == a + b[..k - |a|];
        RunAppend(START, a, b[..k - |a|]);
      }
    }
  }

  lemma FormNeverBelow(f: string)
    requires IsForm(f)
    ensures NeverBelow(f)
  {
    hide Run;
    RunEmpty();
    forall k | 0 <= k <= |f|
      ensures Run(START, f[..k]).depth >= 0
    {
      if k == 0 {
        assert f[..0] == "";
      } else if k == |f| {
        assert f[..k] == f;
      }
    }
  }

  lemma BlankLineBalanced()
    ensures Run(START, BLANK_LINE) == START && NeverBelow(BLANK_LINE)
  {
    assert BLANK_LINE[..0] == "" && BLANK_LINE[..1] == "\n" && "\n"[..0] == "" && BLANK_LINE[..2] == BLANK_LINE;
    assert Run(START, "") == START && Run(START, "\n") == START && Run(START, BLANK_LINE) == START;
  }

  /** The joined source is accepted. */
  lemma {:induction false} JoinedBalanced(forms: seq<string>)
    requires forall f <- forms :: IsForm(f)
    ensures Run(START, Join(forms)) == START && NeverBelow(Join(forms))
  {
    hide Run; hide NeverBelow;
    RunEmpty();
    EmptyNeverBelow();
    if forms == [] {
    } else {
      var f := forms[0];
      assert IsForm(f);
      FormNeverBelow(f);
      if |forms| > 1 {
        JoinedBalanced(forms[1..]);
        BlankLineBalanced();
        RunAppend(START, f, BLANK_LINE);
        NeverBelowAppend(f, BLANK_LINE);
        RunAppend(START, f + BLANK_LINE, Join(forms[1..]));
        NeverBelowAppend(f + BLANK_LINE, Join(forms[1..]));
      }
    }
  }

  lemma EmptyNeverBelow()
    ensures NeverBelow("")
  {
  }

  /** For every source, its forms joined by blank lines are an accepted source with the same forms. */
  lemma Rescan(source: string)
    ensures Balanced(Join(FormsOf(source))) && FormsOf(Join(FormsOf(source))) == FormsOf(source)
  {
    hide Run; hide NeverBelow; hide IsForm;
    RunEmpty();
    NothingOpened();
    CollectedForms(source, START, "");
    JoinedForms(FormsOf(source));
    JoinedBalanced(FormsOf(source));
  }

  lemma NothingOpened()
    ensures Opened(START, "")
  {
  }

  // ---------------------------------------------------------------- component definitions

  function Components(forms: seq<string>): (r: seq<string>)
    ensures forall f <- r :: f in forms
  {
    if forms == [] then []
    else (if "(define-component " <= forms[0] then [forms[0]] else []) + Components(forms[1..])
  }

  /** The form begins a component definition. */
  predicate IsComponent(form: string) {
    |form| >= 18 && form[..18] == "(define-component "
  }

  /** From the given form on, exactly the component definitions are kept; at lists their places. */
  ghost predicate Places(forms: seq<string>, from: nat, kept: seq<string>, at: seq<nat>) {
    && |at| == |kept|
    && (forall k :: 0 <= k < |at| ==> from <= at[k] < |forms| && forms[at[k]] == kept[k])
    && (forall j, k :: 0 <= j < k < |at| ==> at[j] < at[k])
    && forall i :: from <= i < |forms| ==> (i in at <==> IsComponent(forms[i]))
  }

  lemma PlacesSkip(forms: seq<string>, from: nat, kept: seq<string>, at: seq<nat>)
    requires from < |forms| && !IsComponent(forms[from]) && Places(forms, from + 1, kept, at)
    ensures Places(forms, from, kept, at)
  {
  }

  lemma PlacesKeep(forms: seq<string>, from: nat, kept: seq<string>, at: seq<nat>)
    requires from < |forms| && IsComponent(forms[from]) && Places(forms, from + 1, kept, at)
    ensures Places(forms, from, [forms[from]] + kept, [from] + at)
  {
    hide IsComponent;
  }

  lemma {:induction false} PlacesFrom(forms: seq<string>, from: nat) returns (at: seq<nat>)
    requires from <= |forms|
    ensures Places(forms, from, Components(forms[from..]), at)
    decreases |forms| - from
  {
    hide Places;
    if from == |forms| {
      at := [];
      NoPlaces(forms);
    } else {
      at := PlacesFrom(forms, from + 1);
      assert forms[from..][0] == forms[from] && forms[from..][1..] == forms[from + 1..];
      PrefixIsComponent(forms[from]);
      if IsComponent(forms[from]) {
        PlacesKeep(forms, from, Components(forms[from + 1..]), at);
        at := [from] + at;
      } else {
        PlacesSkip(forms, from, Components(forms[from + 1..]), at);
        assert [] + Components(forms[from + 1..]) == Components(forms[from + 1..]);
      }
    }
  }

  lemma NoPlaces(forms: seq<string>)
    ensures Places(forms, |forms|, [], [])
  {
  }

  /** Exactly the component definitions are kept, in their order: at lists their places among the forms. */
  lemma ComponentsKept(forms: seq<string>) returns (at: seq<nat>)
    ensures |at| == |Components(forms)|
    ensures forall k :: 0 <= k < |at| ==> at[k] < |forms| && forms[at[k]] == Components(forms)[k]
    ensures forall j, k :: 0 <= j < k < |at| ==> at[j] < at[k]
    ensures forall i :: 0 <= i < |forms| ==> (i in at <==> IsComponent(forms[i]))
  {
    hide IsComponent;
    at := PlacesFrom(forms, 0);
    assert forms[0..] == forms;
  }

  lemma PrefixIsComponent(form: string)
    ensures "(define-component " <= form <==> IsComponent(form)
  {
    assert |"(define-component "| == 18;
  }

  /** The component definitions of a source, as a source of their own. */
  function Definitions(source: string): string {
    Join(Components(FormsOf(source)))
  }

  lemma {:induction false} ComponentsTwice(forms: seq<string>)
    ensures Components(Components(forms)) == Components(forms)
  {
    if forms == [] {
    } else {
      ComponentsTwice(forms[1..]);
      if "(define-component " <= forms[0] {
        assert Components(forms) == [forms[0]] + Components(forms[1..]);
        assert Components(forms)[1..] == Components(forms[1..]);
        assert Components(Components(forms)) == [forms[0]] + Components(Components(forms[1..]));
      } else {
        assert Components(forms) == Components(forms[1..]);
      }
    }
  }

  /** The extracted definitions are an accepted source, hold the components only, and extract to themselves. */
  lemma DefinitionsRescan(source: string)
    ensures Balanced(Definitions(source)) && FormsOf(Definitions(source)) == Components(FormsOf(source))
    ensures Definitions(Definitions(source)) == Definitions(source)
  {
    hide Run; hide NeverBelow; hide IsForm; hide Join;
    RunEmpty();
    NothingOpened();
    CollectedForms(source, START, "");
    JoinedForms(Components(FormsOf(source)));
    JoinedBalanced(Components(FormsOf(source)));
    ComponentsTwice(FormsOf(source));
  }

  // ---------------------------------------------------------------- the collecting scanner

  datatype Scanned = Forms(forms: seq<string>) | Unbalanced | Unterminated

  lemma PrefixNext(source: string, i: nat)
    requires i < |source|
    ensures Run(START, source[..i + 1]) == Step(Run(START, source[..i]), source[i])
  {
    assert source[..i + 1] == source[..i] + [source[i]];
    RunSnoc(START, source[..i], source[i]);
  }

  /** The state before a position, and what is still to be collected from there. */
  ghost predicate At(source: string, i: nat, st: State, start: nat, result: seq<string>) {
    && i <= |source| && st == Run(START, source[..i]) && st.depth >= 0 && start <= i
    && (forall k :: 0 <= k <= i ==> Run(START, source[..k]).depth >= 0)
    && FormsOf(source) == result + Collect(source[i..], st, if st.depth > 0 then source[start..i] else "")
  }

  /** A character that opens or closes no form. */
  lemma AtNext(source: string, i: nat, st: State, start: nat, result: seq<string>, next: State)
    requires At(source, i, st, start, result) && i < |source|
    requires next == Step(st, source[i]) && next.depth >= 0
    requires st.depth > 0 ==> next.depth > 0
    requires st.depth == 0 < next.depth ==> start == i
    ensures At(source, i + 1, next, start, result)
  {
    hide Run;
    PrefixNext(source, i);
    assert source[i..][1..] == source[i + 1..];
    assert st.depth > 0 ==> source[start..i] + [source[i]] == source[start..i + 1];
    assert "" + [source[i]] == source[i..i + 1];
  }

  lemma AtClose(source: string, i: nat, st: State, start: nat, result: seq<string>, next: State)
    requires At(source, i, st, start, result) && i < |source|
    requires next == Step(st, source[i]) && st.depth > 0 && next.depth == 0
    ensures At(source, i + 1, next, start, result + [source[start..i + 1]])
  {
    hide Run;
    PrefixNext(source, i);
    assert source[i..][1..] == source[i + 1..];
    assert source[start..i] + [source[i]] == source[start..i + 1];
    var f := source[start..i + 1];
    assert result + ([f] + Collect(source[i + 1..], next, "")) == result + [f] + Collect(source[i + 1..], next, "");
  }

  lemma AtMoved(source: string, i: nat, st: State, start: nat, start': nat, result: seq<string>)
    requires At(source, i, st, start, result) && st.depth == 0 && start' <= i
    ensures At(source, i, st, start', result)
  {
    hide Run; hide FormsOf;
  }

  /**
   * The forms of a source. It is accepted exactly when it is balanced; the two errors tell a parenthesis
   * too many from one, or a quote, too few.
   */
  method SourceForms(source: string) returns (r: Scanned)
    ensures r.Forms? <==> Balanced(source)
    ensures r.Forms? ==> r.forms == FormsOf(source)
    ensures r.Unbalanced? <==> !NeverBelow(source)
  {
    hide Run; hide FormsOf;
    RunEmpty();
    var result: seq<string> := [];
    var depth, start, quoted, comment := 0, 0, false, false;
    ghost var st := START;
    assert source[..0] == "" && source[0..] == source;
    StartsAt(source);
    var i := 0;
    while i < |source|
      invariant i <= |source| + 1
      invariant i <= |source| ==> At(source, i, st, start, result) && st == State(ModeOf(quoted, comment), depth)
      invariant i > |source| ==> At(source, |source|, st, start, result) && st == State(Escaped, depth) && quoted
      invariant !(quoted && comment) && depth >= 0
      decreases |source| + 1 - i
    {
      var c := source[i];
      ghost var next := Step(st, c);
      if comment {
        if c == '\n' {
          comment := false;
        }
        AtNext(source, i, st, start, result, next);
      } else if quoted {
        AtNext(source, i, st, start, result, next);
        if c == '\\' {
          i := i + 1;
          if i < |source| {
            AtNext(source, i, next, start, result, Step(next, source[i]));
            next := Step(next, source[i]);
          }
        } else if c == '"' {
          quoted := false;
        }
      } else if c == ';' {
        comment := true;
        AtNext(source, i, st, start, result, next);
      } else if c == '"' {
        quoted := true;
        AtNext(source, i, st, start, result, next);
      } else if c == '(' {
        if depth == 0 {
          AtMoved(source, i, st, start, i, result);
          start := i;
        }
        depth := depth + 1;
        AtNext(source, i, st, start, result, next);
      } else if c == ')' {
        depth := depth - 1;
        if depth < 0 {
          PrefixNext(source, i);
          return Unbalanced;
        }
        if depth == 0 {
          AtClose(source, i, st, start, result, next);
          result := result + [source[start..i + 1]];
        } else {
          AtNext(source, i, st, start, result, next);
        }
      } else {
        AtNext(source, i, st, start, result, next);
      }
      st := next;
      i := i + 1;
    }
    assert source[..|source|] == source && source[|source|..] == "";
    if depth > 0 || quoted {
      return Unterminated;
    }
    r := Forms(result);
  }

  function ModeOf(quoted: bool, comment: bool): Mode {
    if comment then Comment else if quoted then Quoted else Code
  }

  lemma StartsAt(source: string)
    ensures At(source, 0, START, 0, [])
  {
    assert source[..0] == "" && source[0..] == source;
    assert [] + FormsOf(source) == FormsOf(source);
  }

  // ---------------------------------------------------------------- the flag scanner

  const MODEL: string := "(model"

  /** The first place where a model seems to begin. */
  ghost predicate FirstAt(reply: string, s: nat) {
    && s <= |reply| && MODEL <= reply[s..]
    && forall k :: 0 <= k < s ==> !(MODEL <= reply[k..])
  }

  /** The text closes its first form with its n-th character. */
  ghost predicate ClosesAt(text: string, n: nat) {
    n <= |text| && IsForm(text[..n])
  }

  lemma ClosesOnce(text: string, m: nat, n: nat)
    requires ClosesAt(text, m) && ClosesAt(text, n)
    ensures m == n
  {
    OpenUntil(text, m);
    OpenUntil(text, n);
  }

  lemma OpenUntil(text: string, n: nat)
    requires ClosesAt(text, n)
    ensures n > 0 && Run(START, text[..n]).depth == 0
    ensures forall k :: 0 < k < n ==> Run(START, text[..k]).depth > 0
  {
    hide Run;
    forall k | 0 < k < n
      ensures Run(START, text[..k]).depth > 0
    {
      assert text[..n][..k] == text[..k];
    }
  }

  /** Where a text that opens a form closes it, the collecting scan ends its first form. */
  lemma FirstForm(text: string, n: nat)
    requires ClosesAt(text, n)
    ensures FormsOf(text) != [] && FormsOf(text)[0] == text[..n]
  {
    assert text == text[..n] + text[n..];
    LeadingForm(text[..n], text[n..]);
  }

  /** The first form that the collecting scan finds in a text that opens one lies at its start. */
  lemma {:induction false} FirstCollected(text: string, k: nat)
    requires 0 < k <= |text| && text[0] == '('
    requires Opened(Run(START, text[..k]), text[..k]) && Run(START, text[..k]).depth > 0
    ensures var forms := Collect(text[k..], Run(START, text[..k]), text[..k]);
            forms != [] ==> ClosesAt(text, |forms[0]|) && forms[0] == text[..|forms[0]|]
    decreases |text| - k
  {
    hide Run; hide IsForm; hide Opened;
    if k >= |text| {
    } else {
      var st := Run(START, text[..k]);
      PrefixNext(text, k);
      assert text[k..][0] == text[k] && text[k..][1..] == text[k + 1..] && text[..k] + [text[k]] == text[..k + 1];
      var next := Step(st, text[k]);
      if next.depth > 0 {
        OpenedStep(st, text[..k], text[k]);
        FirstCollected(text, k + 1);
      } else if next.depth == 0 {
        ClosesForm(st, text[..k], text[k]);
      }
    }
  }

  /** Both scanners close a text that begins with "(model" at the same place, if at all. */
  lemma ScannersAgree(text: string)
    requires MODEL <= text
    ensures (exists n: nat :: ClosesAt(text, n)) <==> FormsOf(text) != []
    ensures forall n: nat :: ClosesAt(text, n) ==> FormsOf(text)[0] == text[..n]
  {
    hide Run; hide IsForm; hide Opened; hide FormsOf;
    forall n: nat | ClosesAt(text, n)
      ensures FormsOf(text) != [] && FormsOf(text)[0] == text[..n]
    {
      FirstForm(text, n);
    }
    if FormsOf(text) != [] {
      OpensAtOnce(text);
      FirstCollected(text, 1);
      assert ClosesAt(text, |FormsOf(text)[0]|);
    }
  }

  lemma OpensAtOnce(text: string)
    requires text != "" && text[0] == '('
    ensures Run(START, text[..1]) == State(Code, 1) && Opened(State(Code, 1), text[..1])
    ensures FormsOf(text) == Collect(text[1..], State(Code, 1), text[..1])
  {
    assert text[..1] == "(" && text[..1][..0] == "" && "" + [text[0]] == text[..1];
    assert text[..1][..1] == text[..1];
  }

  predicate IsSpace(c: char) {
    var n := c as int;
    9 <= n <= 13 || n in {0x20, 0x85, 0xA0, 0x1680, 0x2028, 0x2029, 0x202F, 0x205F, 0x3000} || 0x2000 <= n <= 0x200A
  }

  function Trim(text: string): string {
    if text == "" then ""
    else if IsSpace(text[0]) then Trim(text[1..])
    else if IsSpace(text[|text| - 1]) then Trim(text[..|text| - 1])
    else text
  }

  lemma FormEnds(f: string)
    requires IsForm(f)
    ensures f[|f| - 1] == ')'
  {
    assert f[..|f| - 1] + [f[|f| - 1]] == f;
    RunSnoc(START, f[..|f| - 1], f[|f| - 1]);
  }

  /** The mode that the flags stand for. */
  function FlagMode(inString: bool, escaped: bool, lineComment: bool): Mode {
    if lineComment then Comment else if inString && escaped then Escaped else if inString then Quoted else Code
  }

  /** The balanced expression that the first "(model" opens, wherever it stands in the reply. */
  method ExtractModel(reply: string) returns (r: Option<string>)
    ensures r.Some? <==> exists s: nat, n: nat :: FirstAt(reply, s) && ClosesAt(reply[s..], n)
    ensures forall s: nat, n: nat :: FirstAt(reply, s) && ClosesAt(reply[s..], n) ==> r == Some(reply[s..][..n])
  {
    hide Run; hide IsForm;
    var found, start := Find(reply);
    if !found {
      return None;
    }
    var text := reply[start..];
    r := CloseFirst(text);
    forall s: nat | FirstAt(reply, s)
      ensures s == start
    {
      FirstOnce(reply, s, start);
    }
  }

  lemma FirstOnce(reply: string, s: nat, t: nat)
    requires FirstAt(reply, s) && FirstAt(reply, t)
    ensures s == t
  {
  }

  method Find(reply: string) returns (found: bool, start: nat)
    ensures found ==> FirstAt(reply, start)
    ensures !found ==> forall s: nat :: !FirstAt(reply, s)
  {
    start := 0;
    while start <= |reply|
      invariant start <= |reply| + 1
      invariant forall k :: 0 <= k < start ==> !(MODEL <= reply[k..])
    {
      if MODEL <= reply[start..] {
        return true, start;
      }
      start := start + 1;
    }
    return false, 0;
  }

  /** Up to a position, the form that the text opens is still open. */
  ghost predicate StillOpen(text: string, i: nat) {
    i <= |text| && forall k :: 0 < k <= i ==> Run(START, text[..k]).depth > 0
  }

  lemma StaysOpen(text: string, i: nat)
    requires StillOpen(text, i) && i < |text| && Run(START, text[..i + 1]).depth > 0
    ensures StillOpen(text, i + 1)
  {
  }

  lemma NeverClosed(text: string)
    requires StillOpen(text, |text|)
    ensures forall n: nat :: !ClosesAt(text, n)
  {
    hide Run;
    forall n: nat | n <= |text|
      ensures !ClosesAt(text, n)
    {
      assert n == 0 || Run(START, text[..n]) != START;
    }
  }

  lemma ClosedHere(text: string, i: nat)
    requires 0 < i < |text| && text[0] == '(' && StillOpen(text, i) && Run(START, text[..i + 1]).depth == 0
    ensures ClosesAt(text, i + 1)
  {
    hide Run;
    var f := text[..i + 1];
    forall k | 0 < k < |f|
      ensures Run(START, f[..k]).depth > 0
    {
      assert f[..k] == text[..k];
    }
    assert f[..i] == text[..i];
    PrefixNext(text, i);
  }

  /** The flag scanner: one pass over string, escape and comment flags. */
  method CloseFirst(text: string) returns (r: Option<string>)
    requires MODEL <= text
    ensures r.Some? <==> exists n: nat :: ClosesAt(text, n)
    ensures forall n: nat :: ClosesAt(text, n) ==> r == Some(text[..n])
  {
    hide Run; hide ClosesAt; hide StillOpen;
    RunEmpty();
    var depth := 0;
    var inString, escaped, lineComment := false, false, false;
    OpensNothing(text);
    for offset := 0 to |text|
      invariant StillOpen(text, offset)
      invariant Run(START, text[..offset]) == State(FlagMode(inString, escaped, lineComment), depth)
      invariant escaped ==> inString
      invariant !(inString && lineComment) && (offset > 0 ==> depth > 0) && depth >= 0
    {
      PrefixNext(text, offset);
      var c := text[offset];
      if c == '\n' && lineComment {
        lineComment := false;
      } else if lineComment {
      } else if c == ';' && !inString {
        lineComment := true;
      } else if c == '\\' && inString {
        escaped := !escaped;
      } else if c == '"' && !escaped {
        inString := !inString;
      } else {
        escaped := false;
      }
      if !inString && !lineComment {
        if c == '(' {
          depth := depth + 1;
        } else if c == ')' {
          if depth == 0 {
            return None;
          }
          depth := depth - 1;
          if depth == 0 {
            ClosedHere(text, offset);
            forall n: nat | ClosesAt(text, n)
              ensures n == offset + 1
            {
              ClosesOnce(text, n, offset + 1);
            }
            r := Some(Trim(text[..offset + 1]));
            TrimForm(text, offset + 1);
            return;
          }
        }
      }
      StaysOpen(text, offset);
    }
    NeverClosed(text);
    r := None;
  }

  lemma OpensNothing(text: string)
    ensures text[..0] == "" && StillOpen(text, 0)
  {
  }

  lemma TrimForm(text: string, n: nat)
    requires ClosesAt(text, n)
    ensures Trim(text[..n]) == text[..n]
  {
    FormEnds(text[..n]);
  }
}
