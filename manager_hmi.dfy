/**
 * The command side of the HMI manager on the H7A3ZI board: a received message
 * `{section;section;...}` is split into at most 30 sections of at most 19
 * characters, and the mode, action and content sections select movement
 * commands. The calls into the movement manager are modelled as the sequence
 * of commands they issue.
 */
module ManagerHmi {
  import opened Wrappers
  import opened CStrings

  const SectionLength: nat := 20
  const SectionNbr: nat := 30
  const BufLength: nat := 50
  const ModeSection: nat := 0
  const ActionSection: nat := 1
  const ContentSection: nat := 2
  const ExerciseSectionNbr: nat := 5
  const ContentFirstExerciseSection: nat := 6
  const Delimiter: char := ';'

  datatype Direction = Right | Left | Up | Down

  datatype Motor = Motor1 | Motor2 | Motor3

  /** One call into the movement manager. */
  datatype MovementCmd =
    | ManualEversion(direction: Direction)
    | ManualDorsiflexion(direction: Direction)
    | ManualExtension(direction: Direction)
    | ManualHome(motor: Motor)
    | ManualHomeAll
    | StartExercise
    | NextExercise
    | StopExercise
    | AddExercise(index: nat)
    | SetFinalPos(index: nat)

  // ---------------------------------------------------------------------------
  // strtok(s, ";")
  // ---------------------------------------------------------------------------

  /** The first index at or after i that does not hold the delimiter. */
  function SkipDelimiters(s: seq<char>, i: nat): (j: nat)
    requires i <= |s|
    ensures i <= j <= |s|
    ensures forall k :: i <= k < j ==> s[k] == Delimiter
    ensures j < |s| ==> s[j] != Delimiter
    decreases |s| - i
  {
    if i == |s| || s[i] != Delimiter then i else SkipDelimiters(s, i + 1)
  }

  /** The first index at or after i that holds the delimiter, or |s|. */
  function TokenEnd(s: seq<char>, i: nat): (j: nat)
    requires i <= |s|
    ensures i <= j <= |s|
    ensures forall k :: i <= k < j ==> s[k] != Delimiter
    ensures j < |s| ==> s[j] == Delimiter
    decreases |s| - i
  {
    if i == |s| || s[i] == Delimiter then i else TokenEnd(s, i + 1)
  }

  /** A token and the position where the next call resumes. */
  datatype Step = Step(token: seq<char>, next: nat)

  /**
   * One call of `strtok` resuming at position p: leading delimiters are
   * skipped, the token runs to the next delimiter, which is consumed; at the
   * end of the string there is no token.
   */
  function Strtok(s: seq<char>, p: nat): (r: Option<Step>)
    requires p <= |s|
    ensures r.None? <==> forall k :: p <= k < |s| ==> s[k] == Delimiter
    ensures r.Some? ==> p < r.value.next <= |s| && r.value.token != [] && Delimiter !in r.value.token
    ensures r.Some? ==> r.value.next == |s| || r.value.next >= p + 2
    ensures r.Some? ==> var start := SkipDelimiters(s, p); var end := TokenEnd(s, start);
              && r.value.token == s[start..end]
              && r.value.next == (if end < |s| then end + 1 else end)
  {
    var start := SkipDelimiters(s, p);
    if start == |s| then None
    else
      var end := TokenEnd(s, start);
      assert s[start..end][0] == s[start];
      Some(Step(s[start..end], if end < |s| then end + 1 else end))
  }

  /** The tokens successive calls return from position p on. */
  function TokensFrom(s: seq<char>, p: nat): seq<seq<char>>
    requires p <= |s|
    decreases |s| - p
  {
    match Strtok(s, p)
    case None => []
    case Some(step) => [step.token] + TokensFrom(s, step.next)
  }

  function Tokens(s: seq<char>): seq<seq<char>>
  {
    TokensFrom(s, 0)
  }

  /** The fields of s between delimiters, empty ones included: `a;;b` has three. */
  function Fields(s: seq<char>): (r: seq<seq<char>>)
    ensures |r| >= 1
    decreases |s|
  {
    if s == [] then [[]]
    else
      var rest := Fields(s[1..]);
      if s[0] == Delimiter then [[]] + rest else [[s[0]] + rest[0]] + rest[1..]
  }

  /** The non-empty fields, in order. */
  function NonEmptyFields(fields: seq<seq<char>>): seq<seq<char>>
  {
    if fields == [] then []
    else (if fields[0] == [] then [] else [fields[0]]) + NonEmptyFields(fields[1..])
  }

  lemma {:induction false} FieldsOfNoDelimiter(a: seq<char>)
    requires Delimiter !in a
    ensures Fields(a) == [a]
  {
    if a != [] {
      FieldsOfNoDelimiter(a[1..]);
      assert [a[0]] + a[1..] == a;
    }
  }

  /** The first field ends at the first delimiter. */
  lemma {:induction false} FieldsSplit(a: seq<char>, b: seq<char>)
    requires Delimiter !in a
    ensures Fields(a + [Delimiter] + b) == [a] + Fields(b)
  {
    var t := a + [Delimiter] + b;
    if a == [] {
      assert t[1..] == b;
    } else {
      assert t[1..] == a[1..] + [Delimiter] + b;
      FieldsSplit(a[1..], b);
      assert [t[0]] + a[1..] == a;
    }
  }

  /** The token found from p when no delimiter follows p: the rest of the string, if any. */
  lemma LastField(s: seq<char>, p: nat)
    requires p <= |s| && TokenEnd(s, p) == |s|
    ensures TokensFrom(s, p) == NonEmptyFields(Fields(s[p..]))
  {
    if p < |s| {
      FinalToken(s, p);
      assert s[p..|s|] == s[p..];
      FieldsOfNoDelimiter(s[p..]);
      assert NonEmptyFields([s[p..]]) == [s[p..]] + NonEmptyFields([]);
    } else {
      assert Fields(s[p..]) == [[]];
      assert NonEmptyFields([[]]) == [] + NonEmptyFields([]);
    }
  }

  /** A delimiter at p begins an empty field, which is dropped. */
  lemma SkippedField(s: seq<char>, p: nat)
    requires p < |s| && s[p] == Delimiter
    ensures NonEmptyFields(Fields(s[p..])) == NonEmptyFields(Fields(s[p + 1..]))
  {
    assert s[p..] == [] + [Delimiter] + s[p + 1..];
    FieldsSplit([], s[p + 1..]);
    var f := [[]] + Fields(s[p + 1..]);
    assert f[1..] == Fields(s[p + 1..]);
  }

  /** A field that ends at the delimiter at e is kept, and the fields after e follow it. */
  lemma TokenField(s: seq<char>, p: nat, e: nat)
    requires p < e < |s| && e == TokenEnd(s, p)
    ensures NonEmptyFields(Fields(s[p..])) == [s[p..e]] + NonEmptyFields(Fields(s[e + 1..]))
  {
    assert s[p..] == s[p..e] + [Delimiter] + s[e + 1..];
    FieldsSplit(s[p..e], s[e + 1..]);
    var f := [s[p..e]] + Fields(s[e + 1..]);
    assert f[1..] == Fields(s[e + 1..]);
  }

  /** A token starts at p and ends at a delimiter: the following calls resume after that delimiter. */
  lemma TokenAt(s: seq<char>, p: nat, e: nat)
    requires p < e < |s| && e == TokenEnd(s, p)
    ensures TokensFrom(s, p) == [s[p..e]] + TokensFrom(s, e + 1)
  {
    assert SkipDelimiters(s, p) == p;
    assert Strtok(s, p).Some?;
  }

  /** A token starts at p and runs to the end of the string: it is the last one. */
  lemma FinalToken(s: seq<char>, p: nat)
    requires p < |s| && TokenEnd(s, p) == |s|
    ensures TokensFrom(s, p) == [s[p..]]
  {
    assert SkipDelimiters(s, p) == p;
    assert Strtok(s, p) == Some(Step(s[p..|s|], |s|));
    assert TokensFrom(s, |s|) == [];
    assert s[p..|s|] == s[p..];
  }

  /** A delimiter at p is skipped. */
  lemma SkippedDelimiter(s: seq<char>, p: nat)
    requires p < |s| && s[p] == Delimiter
    ensures TokensFrom(s, p) == TokensFrom(s, p + 1)
  {
    assert SkipDelimiters(s, p) == SkipDelimiters(s, p + 1);
    assert Strtok(s, p) == Strtok(s, p + 1);
  }

  /** Splitting at a delimiter joins the fields of both sides. */
  lemma {:induction false} FieldsAppend(a: seq<char>, b: seq<char>)
    ensures Fields(a + [Delimiter] + b) == Fields(a) + Fields(b)
  {
    var t := a + [Delimiter] + b;
    if a == [] {
      assert t[1..] == b;
    } else {
      assert t[1..] == a[1..] + [Delimiter] + b;
      FieldsAppend(a[1..], b);
    }
  }

  lemma {:induction false} NonEmptyFieldsAppend(f: seq<seq<char>>, g: seq<seq<char>>)
    ensures NonEmptyFields(f + g) == NonEmptyFields(f) + NonEmptyFields(g)
  {
    if f != [] {
      assert (f + g)[1..] == f[1..] + g;
      NonEmptyFieldsAppend(f[1..], g);
    } else {
      assert f + g == g;
    }
  }

  /**
   * `strtok` with the delimiter `;` returns the fields of the string between
   * delimiters, in order, with the empty ones left out.
   */
  lemma {:induction false} TokensAreFields(s: seq<char>, p: nat)
    requires p <= |s|
    ensures TokensFrom(s, p) == NonEmptyFields(Fields(s[p..]))
    decreases |s| - p
  {
    var e := TokenEnd(s, p);
    if e == |s| {
      LastField(s, p);
    } else if e == p {
      SkippedDelimiter(s, p);
      SkippedField(s, p);
      TokensAreFields(s, p + 1);
    } else {
      TokenAt(s, p, e);
      TokenField(s, p, e);
      TokensAreFields(s, e + 1);
    }
  }

  /** Every token is non-empty, holds no delimiter, and holds no character absent from the string. */
  lemma {:induction false} TokensFromShape(s: seq<char>, p: nat)
    requires p <= |s|
    ensures forall t :: t in TokensFrom(s, p) ==> t != [] && Delimiter !in t
    ensures forall t, c :: t in TokensFrom(s, p) && c in t ==> c in s
    decreases |s| - p
  {
    match Strtok(s, p)
    case None =>
    case Some(step) =>
      TokensFromShape(s, step.next);
      var start := SkipDelimiters(s, p);
      var end := TokenEnd(s, start);
      assert step.token == s[start..end];
      forall c | c in step.token ensures c in s {
        var k :| 0 <= k < |step.token| && step.token[k] == c;
        assert s[start + k] == c;
      }
  }

  /** A string of n characters holds at most (n + 1) / 2 tokens. */
  lemma {:induction false} TokensFromBound(s: seq<char>, p: nat)
    requires p <= |s|
    ensures |TokensFrom(s, p)| <= (|s| - p + 1) / 2
    decreases |s| - p
  {
    match Strtok(s, p)
    case None =>
    case Some(step) =>
      TokensFromBound(s, step.next);
  }

  /**
   * The last character of the string is `}`: it ends the last token, which is
   * exactly `}` only when the string is `}` or ends in `;}`.
   */
  lemma TrailingBrace(s: seq<char>, p: nat)
    requires p < |s| && s[|s| - 1] == '}'
    ensures TokensFrom(s, p) != []
    ensures BraceToken(s, p, TokensFrom(s, p)[|TokensFrom(s, p)| - 1])
  {
    TokensAreFields(s, p);
    BraceField(s[p..]);
    var f := NonEmptyFields(Fields(s[p..]));
    BraceTokenOfSuffix(s, p, f[|f| - 1]);
  }

  /** BraceToken read on the string from p is BraceToken read on s at p. */
  lemma BraceTokenOfSuffix(s: seq<char>, p: nat, last: seq<char>)
    requires p < |s| && BraceToken(s[p..], 0, last)
    ensures BraceToken(s, p, last)
  {
    var x := s[p..];
    assert |x| >= 2 ==> x[|x| - 2] == s[|s| - 2];
  }

  /** The last delimiter of x, or -1 when there is none. */
  function LastDelimiter(x: seq<char>): (i: int)
    ensures -1 <= i < |x|
    ensures i >= 0 ==> x[i] == Delimiter
    ensures forall k :: i < k < |x| ==> x[k] != Delimiter
  {
    if x == [] then -1
    else if x[|x| - 1] == Delimiter then |x| - 1
    else LastDelimiter(x[..|x| - 1])
  }

  /** A non-empty string without a delimiter is its one non-empty field. */
  lemma SingleField(b: seq<char>)
    requires b != [] && Delimiter !in b
    ensures NonEmptyFields(Fields(b)) == [b]
  {
    FieldsOfNoDelimiter(b);
    assert NonEmptyFields([b]) == [b] + NonEmptyFields([]);
  }

  /** A non-empty string without a delimiter after the last delimiter is the last non-empty field. */
  lemma LastNonEmptyField(a: seq<char>, b: seq<char>)
    requires b != [] && Delimiter !in b
    ensures var f := NonEmptyFields(Fields(a + [Delimiter] + b));
      f != [] && f[|f| - 1] == b
  {
    FieldsAppend(a, b);
    NonEmptyFieldsAppend(Fields(a), Fields(b));
    SingleField(b);
    var before := NonEmptyFields(Fields(a));
    var f := NonEmptyFields(Fields(a + [Delimiter] + b));
    assert f == before + [b];
    assert |f| - 1 == |before|;
  }

  /** The same for x, seen as the part before its delimiter at i, that delimiter, and the rest. */
  lemma FieldAfterDelimiterAt(x: seq<char>, i: nat)
    requires i < |x| - 1 && x[i] == Delimiter && Delimiter !in x[i + 1..]
    ensures var f := NonEmptyFields(Fields(x));
      f != [] && f[|f| - 1] == x[i + 1..]
  {
    assert x == x[..i] + [Delimiter] + x[i + 1..];
    LastNonEmptyField(x[..i], x[i + 1..]);
  }

  /** The last non-empty field of a string that does not end in a delimiter is what follows its last delimiter. */
  lemma FieldAfterLastDelimiter(x: seq<char>)
    requires x != [] && x[|x| - 1] != Delimiter
    ensures var f := NonEmptyFields(Fields(x));
      f != [] && f[|f| - 1] == x[LastDelimiter(x) + 1..]
  {
    var i := LastDelimiter(x);
    if i >= 0 {
      FieldAfterDelimiterAt(x, i);
    } else {
      assert x[i + 1..] == x;
      SingleField(x);
    }
  }

  /** When x ends in `}`, so does what follows its last delimiter, and that is `}` alone only after a `;` or at the start. */
  lemma BraceAfterLastDelimiter(x: seq<char>)
    requires x != [] && x[|x| - 1] == '}'
    ensures BraceToken(x, 0, x[LastDelimiter(x) + 1..])
  {
    BraceAfterDelimiter(x, LastDelimiter(x));
  }

  /** The same, for any i that is the last delimiter of x, or -1 when there is none. */
  lemma BraceAfterDelimiter(x: seq<char>, i: int)
    requires x != [] && x[|x| - 1] == '}'
    requires -1 <= i < |x| && (i >= 0 ==> x[i] == Delimiter)
    requires forall k :: i < k < |x| ==> x[k] != Delimiter
    ensures BraceToken(x, 0, x[i + 1..])
  {
    assert i < |x| - 1;
  }

  /** When x ends in `}`, its last non-empty field is what follows its last delimiter. */
  lemma BraceField(x: seq<char>)
    requires x != [] && x[|x| - 1] == '}'
    ensures NonEmptyFields(Fields(x)) != []
    ensures BraceToken(x, 0, NonEmptyFields(Fields(x))[|NonEmptyFields(Fields(x))| - 1])
  {
    FieldAfterLastDelimiter(x);
    BraceAfterLastDelimiter(x);
  }

  /**
   * The last token of the string from p, which ends in `}`: it ends in `}`,
   * and it is exactly `}` only when the string from p is `}` or ends in `;}`.
   */
  predicate BraceToken(s: seq<char>, p: nat, last: seq<char>)
    requires p < |s|
  {
    && last != [] && last[|last| - 1] == '}'
    && (|last| == 1 <==> |s| - 1 == p || s[|s| - 2] == Delimiter)
  }

  // ---------------------------------------------------------------------------
  // The parsed sections
  // ---------------------------------------------------------------------------

  /** `*ptr == '}'`: the token that ends the list of sections. */
  predicate ClosesMessage(token: seq<char>) {
    |token| > 0 && token[0] == '}'
  }

  /** The tokens before the first one that starts with `}`. */
  function LeadingSections(tokens: seq<seq<char>>): seq<seq<char>>
  {
    if tokens == [] || ClosesMessage(tokens[0]) then [] else [tokens[0]] + LeadingSections(tokens[1..])
  }

  /** The sections kept: the leading ones, at most 30 of them. */
  function Kept(tokens: seq<seq<char>>): seq<seq<char>>
  {
    var leading := LeadingSections(tokens);
    if |leading| <= SectionNbr then leading else leading[..SectionNbr]
  }

  /** The framing check: `{` first and `}` at the last received byte. */
  predicate Framed(msg: seq<char>, maxLength: nat)
    requires 1 <= maxLength <= |msg|
  {
    msg[0] == '{' && msg[maxLength - 1] == '}'
  }

  /** The sections parsed from a received message; none when the framing check fails. */
  function SectionsOf(msg: seq<char>, maxLength: nat): seq<seq<char>>
    requires 1 <= maxLength <= |msg|
  {
    if Framed(msg, maxLength) then Kept(Tokens(CString(msg[1..]))) else []
  }

  /** The section number written back: untouched on a framing failure, 0 when all 30 slots were used. */
  function ReportedNbr(msg: seq<char>, maxLength: nat, prior: nat): nat
    requires 1 <= maxLength <= |msg|
  {
    if !Framed(msg, maxLength) then prior
    else if |SectionsOf(msg, maxLength)| >= SectionNbr then 0
    else |SectionsOf(msg, maxLength)|
  }

  /** The 20 bytes of a slot after `strncpy(slot, section, 19)` and the final NUL. */
  function Row(section: seq<char>): (r: seq<char>)
    ensures |r| == SectionLength
    ensures forall j :: 0 <= j < SectionLength ==>
              r[j] == if j < |section| && j < SectionLength - 1 then section[j] else Nul
  {
    var n := if |section| < SectionLength - 1 then |section| else SectionLength - 1;
    section[..n] + Zeros(SectionLength - n)
  }

  /** The whole `ParsedMsg` table holding the given sections, zero elsewhere. */
  function Table(sections: seq<seq<char>>): (t: seq<seq<char>>)
    requires |sections| <= SectionNbr
    ensures |t| == SectionNbr
    ensures forall i :: 0 <= i < SectionNbr ==> |t[i]| == SectionLength
    ensures forall i :: 0 <= i < |sections| ==> t[i] == Row(sections[i])
    ensures forall i :: |sections| <= i < SectionNbr ==> t[i] == Zeros(SectionLength)
  {
    seq(SectionNbr, i requires 0 <= i < SectionNbr =>
      if i < |sections| then Row(sections[i]) else Zeros(SectionLength))
  }

  /** Byte j of slot i of the table holding `sections`. */
  function Cell(sections: seq<seq<char>>, i: nat, j: nat): char
  {
    if i < |sections| && j < |sections[i]| && j < SectionLength - 1 then sections[i][j] else Nul
  }

  lemma TableCells(sections: seq<seq<char>>)
    requires |sections| <= SectionNbr
    ensures forall i, j :: 0 <= i < SectionNbr && 0 <= j < SectionLength ==> Table(sections)[i][j] == Cell(sections, i, j)
  {
  }

  /**
   * The kept sections are the tokens in order up to the first `}`-led one,
   * at most 30; parsing stopped early only at such a token.
   */
  lemma {:induction false} KeptStopsAtBrace(tokens: seq<seq<char>>)
    ensures |Kept(tokens)| <= SectionNbr && |Kept(tokens)| <= |tokens|
    ensures Kept(tokens) == tokens[..|Kept(tokens)|]
    ensures forall i :: 0 <= i < |Kept(tokens)| ==> !ClosesMessage(tokens[i])
    ensures |Kept(tokens)| < SectionNbr && |Kept(tokens)| < |tokens| ==> ClosesMessage(tokens[|Kept(tokens)|])
  {
    LeadingSectionsShape(tokens);
  }

  lemma {:induction false} LeadingSectionsShape(tokens: seq<seq<char>>)
    ensures |LeadingSections(tokens)| <= |tokens|
    ensures LeadingSections(tokens) == tokens[..|LeadingSections(tokens)|]
    ensures forall i :: 0 <= i < |LeadingSections(tokens)| ==> !ClosesMessage(tokens[i])
    ensures |LeadingSections(tokens)| < |tokens| ==> ClosesMessage(tokens[|LeadingSections(tokens)|])
  {
    if tokens != [] && !ClosesMessage(tokens[0]) {
      LeadingSectionsShape(tokens[1..]);
    }
  }

  /** Leading sections past a prefix with no `}`-led token. */
  lemma {:induction false} LeadingSectionsSplit(tokens: seq<seq<char>>, c: nat)
    requires c <= |tokens|
    requires forall i :: 0 <= i < c ==> !ClosesMessage(tokens[i])
    ensures LeadingSections(tokens) == tokens[..c] + LeadingSections(tokens[c..])
  {
    if c > 0 {
      LeadingSectionsSplit(tokens[1..], c - 1);
      assert tokens[1..][c - 1..] == tokens[c..];
      assert [tokens[0]] + tokens[1..][..c - 1] == tokens[..c];
    }
  }

  /**
   * Each slot holds at most 19 characters of its section followed by NUL, and
   * `strcmp` sees the section cut to 19 characters.
   */
  lemma RowShape(section: seq<char>)
    requires Nul !in section
    ensures |Row(section)| == SectionLength && Row(section)[SectionLength - 1] == Nul
    ensures CString(Row(section)) == if |section| < SectionLength then section else section[..SectionLength - 1]
  {
    var n := if |section| < SectionLength - 1 then |section| else SectionLength - 1;
    assert Row(section) == section[..n] + [Nul] + Zeros(SectionLength - n - 1);
    CStringOfTerminated(section[..n], Zeros(SectionLength - n - 1));
  }

  /**
   * A message read into the 50-byte buffer holds fewer than 30 sections, so
   * the overflow branch is never taken from `ManagerHMI_ReceiveJSON`.
   */
  lemma NoOverflowFromBuffer(msg: seq<char>, maxLength: nat)
    requires |msg| == BufLength && 1 <= maxLength <= |msg|
    ensures |SectionsOf(msg, maxLength)| < SectionNbr
    ensures Framed(msg, maxLength) ==> ReportedNbr(msg, maxLength, 0) == |SectionsOf(msg, maxLength)|
  {
    var body := CString(msg[1..]);
    TokensFromBound(body, 0);
    KeptStopsAtBrace(Tokens(body));
  }

  // ---------------------------------------------------------------------------
  // Dispatch tables
  // ---------------------------------------------------------------------------

  /** The manual increment commands, in the order the source compares them. */
  const IncrementTable: seq<(string, MovementCmd)> := [
    ("eversionR", ManualEversion(Right)), ("eversionL", ManualEversion(Left)),
    ("dorsiflexionU", ManualDorsiflexion(Up)), ("dorsiflexionD", ManualDorsiflexion(Down)),
    ("extensionU", ManualExtension(Up)), ("extensionD", ManualExtension(Down)),
    ("goHome1", ManualHome(Motor1)), ("goHome2", ManualHome(Motor2)), ("goHome3", ManualHome(Motor3)),
    ("goHome", ManualHomeAll)]

  /** The control commands; `Pause` is recognised and issues nothing. */
  const ControlTable: seq<(string, Option<MovementCmd>)> := [
    ("Start", Some(StartExercise)), ("Next", Some(NextExercise)), ("Pause", None), ("Stop", Some(StopExercise))]

  /**
   * The value of an entry whose name is exactly `key`. The scan stops at the
   * first such entry; in the tables here no name repeats, so it is the only one.
   */
  function Lookup<V>(table: seq<(string, V)>, key: string): (r: Option<V>)
    ensures r.None? <==> forall k :: 0 <= k < |table| ==> table[k].0 != key
    ensures r.Some? ==> exists k :: 0 <= k < |table| && table[k] == (key, r.value)
  {
    if table == [] then None
    else if table[0].0 == key then Some(table[0].1)
    else
      var r := Lookup(table[1..], key);
      assert r.Some? ==> exists k :: 1 <= k < |table| && table[k] == (key, r.value) by {
        if r.Some? {
          var k :| 0 <= k < |table[1..]| && table[1..][k] == (key, r.value);
          assert table[k + 1] == (key, r.value);
        }
      }
      r
  }

  function IncrementCommand(name: string): Option<MovementCmd> {
    Lookup(IncrementTable, name)
  }

  function ControlCommand(name: string): Option<MovementCmd> {
    match Lookup(ControlTable, name)
    case None => None
    case Some(c) => c
  }

  /** The number of exercises a plan of `size` sections carries, if it is well formed. */
  function PlanExerciseCount(size: nat): Option<nat> {
    if size > ContentFirstExerciseSection && (size - ContentFirstExerciseSection) % ExerciseSectionNbr == 0
    then Some((size - ContentFirstExerciseSection) / ExerciseSectionNbr)
    else None
  }

  /** The calls loading `count` exercises. */
  function PlanCalls(count: nat): seq<MovementCmd> {
    if count == 0 then [] else PlanCalls(count - 1) + [AddExercise(count - 1), SetFinalPos(count - 1)]
  }

  function PlanCommands(size: nat): seq<MovementCmd> {
    match PlanExerciseCount(size)
    case None => []
    case Some(n) => PlanCalls(n)
  }

  /** What `ManagerHMI_ExecuteJson` issues for a table whose first three slots read as given. */
  function Commands(mode: string, action: string, content: string, sectionNbr: nat): seq<MovementCmd>
  {
    if sectionNbr < 3 then []
    else if mode == "Manual" then
      (if action == "Increment" then ToSeq(IncrementCommand(content)) else [])
    else if mode == "Auto" then
      (if action == "Plan" then PlanCommands(sectionNbr - ContentSection - 1)
       else if action == "Control" then ToSeq(ControlCommand(content))
       else [])
    else []
  }

  /** What one call of `ManagerHMI_ReceiveJSON` issues, for the 50-byte buffer and the received size. */
  function Received(buf: seq<char>, size: nat): seq<MovementCmd>
    requires |buf| == BufLength
  {
    if 0 < size < BufLength then
      var t := Table(SectionsOf(buf, size));
      Commands(CString(t[0]), CString(t[1]), CString(t[2]), ReportedNbr(buf, size, 0))
    else []
  }

  /** In a table without repeated names, each name finds its own entry. */
  lemma LookupEntry<V>(table: seq<(string, V)>, k: nat)
    requires forall i, j :: 0 <= i < j < |table| ==> table[i].0 != table[j].0
    requires k < |table|
    ensures Lookup(table, table[k].0) == Some(table[k].1)
  {
    var r := Lookup(table, table[k].0);
    var j :| 0 <= j < |table| && table[j] == (table[k].0, r.value);
  }

  /** In a table without repeated names, a found value determines the name. */
  lemma LookupInjective<V>(table: seq<(string, V)>, a: string, b: string)
    requires forall i, j :: 0 <= i < j < |table| ==> table[i].0 != table[j].0
    requires forall i, j :: 0 <= i < j < |table| ==> table[i].1 != table[j].1
    requires Lookup(table, a).Some? && Lookup(table, a) == Lookup(table, b)
    ensures a == b
  {
    var v := Lookup(table, a).value;
    var i :| 0 <= i < |table| && table[i] == (a, v);
    var j :| 0 <= j < |table| && table[j] == (b, v);
  }

  /** No two manual commands share a name or a command. */
  lemma IncrementTableDistinct()
    ensures forall j, k :: 0 <= j < k < |IncrementTable| ==> IncrementTable[j].0 != IncrementTable[k].0
    ensures forall j, k :: 0 <= j < k < |IncrementTable| ==> IncrementTable[j].1 != IncrementTable[k].1
  {
  }

  /**
   * Each of the ten names issues its own command, no other string issues one
   * (the comparison is exact, so `goHome1` is not `goHome`), and the command
   * determines the name.
   */
  lemma IncrementDispatch(name: string, other: string)
    ensures forall k :: 0 <= k < |IncrementTable| ==> IncrementCommand(IncrementTable[k].0) == Some(IncrementTable[k].1)
    ensures IncrementCommand(name).None? <==> forall k :: 0 <= k < |IncrementTable| ==> IncrementTable[k].0 != name
    ensures IncrementCommand(name).Some? && IncrementCommand(name) == IncrementCommand(other) ==> name == other
  {
    IncrementTableDistinct();
    forall k | 0 <= k < |IncrementTable|
      ensures IncrementCommand(IncrementTable[k].0) == Some(IncrementTable[k].1)
    {
      LookupEntry(IncrementTable, k);
    }
    if IncrementCommand(name).Some? && IncrementCommand(name) == IncrementCommand(other) {
      LookupInjective(IncrementTable, name, other);
    }
  }

  /** The manual table as the chain of comparisons `ManagerHMI_ExecuteManualIncrement` makes. */
  lemma IncrementCases(name: string)
    ensures IncrementCommand(name) ==
      if name == "eversionR" then Some(ManualEversion(Right))
      else if name == "eversionL" then Some(ManualEversion(Left))
      else if name == "dorsiflexionU" then Some(ManualDorsiflexion(Up))
      else if name == "dorsiflexionD" then Some(ManualDorsiflexion(Down))
      else if name == "extensionU" then Some(ManualExtension(Up))
      else if name == "extensionD" then Some(ManualExtension(Down))
      else if name == "goHome1" then Some(ManualHome(Motor1))
      else if name == "goHome2" then Some(ManualHome(Motor2))
      else if name == "goHome3" then Some(ManualHome(Motor3))
      else if name == "goHome" then Some(ManualHomeAll)
      else None
  {
    IncrementDispatch(name, name);
    if name == "eversionR" {
      assert name == IncrementTable[0].0;
    } else if name == "eversionL" {
      assert name == IncrementTable[1].0;
    } else if name == "dorsiflexionU" {
      assert name == IncrementTable[2].0;
    } else if name == "dorsiflexionD" {
      assert name == IncrementTable[3].0;
    } else if name == "extensionU" {
      assert name == IncrementTable[4].0;
    } else if name == "extensionD" {
      assert name == IncrementTable[5].0;
    } else if name == "goHome1" {
      assert name == IncrementTable[6].0;
    } else if name == "goHome2" {
      assert name == IncrementTable[7].0;
    } else if name == "goHome3" {
      assert name == IncrementTable[8].0;
    } else if name == "goHome" {
      assert name == IncrementTable[9].0;
    }
  }

  /** `Start`, `Next` and `Stop` each issue their command; `Pause` and every other string issue none. */
  lemma ControlDispatch(name: string)
    ensures ControlCommand("Start") == Some(StartExercise)
    ensures ControlCommand("Next") == Some(NextExercise)
    ensures ControlCommand("Stop") == Some(StopExercise)
    ensures ControlCommand("Pause") == None
    ensures ControlCommand(name).Some? ==> name == "Start" || name == "Next" || name == "Stop"
  {
    if ControlCommand(name).Some? {
      var o := Lookup(ControlTable, name);
      var k :| 0 <= k < |ControlTable| && ControlTable[k] == (name, o.value);
    }
  }

  /**
   * A last section that carries the closing brace (the message did not end in
   * `;}`, see TrailingBrace) does not match its command.
   */
  lemma BraceGluedContentIssuesNothing()
    ensures Commands("Manual", "Increment", "goHome1", 3) == [ManualHome(Motor1)]
    ensures Commands("Manual", "Increment", "goHome1}", 3) == []
    ensures Commands("Auto", "Control", "Stop", 3) == [StopExercise]
    ensures Commands("Auto", "Control", "Stop}", 3) == []
  {
    IncrementCases("goHome1");
    IncrementCases("goHome1}");
    ControlDispatch("Stop}");
  }

  /** A plan loads exercises only when its size exceeds 6 by a multiple of 5, one add and one position per exercise. */
  lemma {:induction false} PlanCallsShape(count: nat)
    ensures |PlanCalls(count)| == 2 * count
    ensures forall i :: 0 <= i < count ==>
              PlanCalls(count)[2 * i] == AddExercise(i) && PlanCalls(count)[2 * i + 1] == SetFinalPos(i)
  {
    if count > 0 {
      PlanCallsShape(count - 1);
    }
  }

  lemma PlanSizeCheck(size: nat)
    ensures PlanCommands(size) != [] <==> size > 6 && (size - 6) % 5 == 0
    ensures PlanCommands(size) != [] ==> |PlanCommands(size)| == 2 * ((size - 6) / 5)
  {
    if size > 6 && (size - 6) % 5 == 0 {
      PlanCallsShape((size - 6) / 5);
    }
  }

  /** Something is issued only with three sections or more and an exact mode and action pair. */
  lemma CommandsNeedModeAndAction(mode: string, action: string, content: string, sectionNbr: nat)
    requires Commands(mode, action, content, sectionNbr) != []
    ensures sectionNbr >= 3
    ensures (mode == "Manual" && action == "Increment")
            || (mode == "Auto" && (action == "Plan" || action == "Control"))
  {
  }

  /** A received message with three short sections issues what its mode, action and content select. */
  lemma ReceivedOfThreeSections(a: seq<char>, b: seq<char>, c: seq<char>, buf: seq<char>, size: nat)
    requires PlainSections(a, b, c)
    requires |buf| == BufLength && 0 < size < BufLength && Framed(buf, size)
    requires SectionsOf(buf, size) == [a, b, c]
    ensures Received(buf, size) == Commands(a, b, c, 3)
  {
    var t := Table([a, b, c]);
    RowShape(a);
    RowShape(b);
    RowShape(c);
    assert CString(t[0]) == a && CString(t[1]) == b && CString(t[2]) == c;
    assert ReportedNbr(buf, size, 0) == 3;
  }

  /** A message padded with NULs: it is framed, and `strtok` sees its body up to the padding. */
  lemma PaddedMessage(body: seq<char>, pad: nat)
    requires Nul !in body && body != [] && body[|body| - 1] == '}' && pad > 0
    ensures var buf := "{" + body + Zeros(pad);
      Framed(buf, |body| + 1) && CString(buf[1..]) == body
  {
    var buf := "{" + body + Zeros(pad);
    assert buf[0] == '{' && buf[|body|] == body[|body| - 1];
    assert Zeros(pad) == [Nul] + Zeros(pad - 1);
    assert buf[1..] == body + [Nul] + Zeros(pad - 1);
    CStringOfTerminated(body, Zeros(pad - 1));
  }

  /** A framed message padded with NULs in the buffer: its sections are the kept fields of its body. */
  lemma SectionsOfPadded(body: seq<char>, pad: nat)
    requires Nul !in body && body != [] && body[|body| - 1] == '}' && pad > 0
    ensures var buf := "{" + body + Zeros(pad);
      SectionsOf(buf, |body| + 1) == Kept(NonEmptyFields(Fields(body)))
  {
    PaddedMessage(body, pad);
    TokensAreFields(body, 0);
    assert body[0..] == body;
  }

  /** Three fields without empty ones. */
  lemma ThreeFields(a: seq<char>, b: seq<char>, c: seq<char>)
    requires Delimiter !in a && Delimiter !in b && Delimiter !in c
    requires a != [] && b != [] && c != []
    ensures NonEmptyFields(Fields(a + [Delimiter] + b + [Delimiter] + c)) == [a, b, c]
  {
    assert a + [Delimiter] + b + [Delimiter] + c == a + [Delimiter] + (b + [Delimiter] + c);
    FieldsSplit(a, b + [Delimiter] + c);
    FieldsSplit(b, c);
    FieldsOfNoDelimiter(c);
    assert NonEmptyFields([c]) == [c] + NonEmptyFields([]);
  }

  /** Three sections of a message that fit their slots and do not end the list. */
  predicate PlainSections(a: seq<char>, b: seq<char>, c: seq<char>) {
    && a != [] && b != [] && c != []
    && Delimiter !in a && Delimiter !in b && Delimiter !in c
    && Nul !in a && Nul !in b && Nul !in c
    && !ClosesMessage(a) && !ClosesMessage(b) && !ClosesMessage(c)
    && |a| < SectionLength && |b| < SectionLength && |c| < SectionLength
  }

  /** Three fields followed by a brace of its own. */
  lemma FourFields(a: seq<char>, b: seq<char>, c: seq<char>)
    requires Delimiter !in a && Delimiter !in b && Delimiter !in c
    requires a != [] && b != [] && c != []
    ensures NonEmptyFields(Fields(a + [Delimiter] + b + [Delimiter] + c + [Delimiter] + "}")) == [a, b, c, "}"]
  {
    var front := a + [Delimiter] + b + [Delimiter] + c;
    assert front + [Delimiter] + "}" == a + [Delimiter] + b + [Delimiter] + c + [Delimiter] + "}";
    ThreeFields(a, b, c);
    FieldsAppend(front, "}");
    FieldsOfNoDelimiter("}");
    NonEmptyFieldsAppend(Fields(front), ["}"]);
    assert NonEmptyFields(["}"]) == ["}"] + NonEmptyFields([]);
  }

  /** Three plain sections followed by nothing or by a `}`-led token are kept whole. */
  lemma KeptOfThree(a: seq<char>, b: seq<char>, c: seq<char>, rest: seq<seq<char>>)
    requires !ClosesMessage(a) && !ClosesMessage(b) && !ClosesMessage(c)
    requires rest == [] || ClosesMessage(rest[0])
    ensures Kept([a, b, c] + rest) == [a, b, c]
  {
    var tokens := [a, b, c] + rest;
    LeadingSectionsSplit(tokens, 3);
    assert tokens[..3] == [a, b, c] && tokens[3..] == rest;
  }

  /** The body `a;b;c` with `c` ending in the brace: a framed body whose kept sections are `a`, `b` and `c`. */
  lemma GluedBraceBody(a: seq<char>, b: seq<char>, c: seq<char>)
    requires PlainSections(a, b, c) && c[|c| - 1] == '}'
    ensures var body := a + [Delimiter] + b + [Delimiter] + c;
      && Nul !in body && body[|body| - 1] == '}'
      && Kept(NonEmptyFields(Fields(body))) == [a, b, c]
  {
    ThreeFields(a, b, c);
    KeptOfThree(a, b, c, []);
    assert [a, b, c] + [] == [a, b, c];
  }

  /** The sections of `{a;b;c}` padded with NULs. */
  lemma GluedBraceSections(a: seq<char>, b: seq<char>, c: seq<char>, pad: nat)
    requires PlainSections(a, b, c) && c[|c| - 1] == '}' && pad > 0
    ensures var buf := "{" + a + [Delimiter] + b + [Delimiter] + c + Zeros(pad);
      var size := |a| + |b| + |c| + 3;
      size <= |buf| && Framed(buf, size) && SectionsOf(buf, size) == [a, b, c]
  {
    var body := a + [Delimiter] + b + [Delimiter] + c;
    assert "{" + a + [Delimiter] + b + [Delimiter] + c + Zeros(pad) == "{" + body + Zeros(pad);
    GluedBraceBody(a, b, c);
    PaddedMessage(body, pad);
    SectionsOfPadded(body, pad);
  }

  /** The body `a;b;c;}`: a framed body whose kept sections are `a`, `b` and `c`. */
  lemma SeparateBraceBody(a: seq<char>, b: seq<char>, c: seq<char>)
    requires PlainSections(a, b, c)
    ensures var body := a + [Delimiter] + b + [Delimiter] + c + [Delimiter] + "}";
      && Nul !in body && body[|body| - 1] == '}'
      && Kept(NonEmptyFields(Fields(body))) == [a, b, c]
  {
    FourFields(a, b, c);
    KeptOfThree(a, b, c, ["}"]);
    assert [a, b, c] + ["}"] == [a, b, c, "}"];
  }

  /** The sections of `{a;b;c;}` padded with NULs. */
  lemma SeparateBraceSections(a: seq<char>, b: seq<char>, c: seq<char>, pad: nat)
    requires PlainSections(a, b, c) && pad > 0
    ensures var buf := "{" + a + [Delimiter] + b + [Delimiter] + c + [Delimiter] + "}" + Zeros(pad);
      var size := |a| + |b| + |c| + 5;
      size <= |buf| && Framed(buf, size) && SectionsOf(buf, size) == [a, b, c]
  {
    var body := a + [Delimiter] + b + [Delimiter] + c + [Delimiter] + "}";
    assert "{" + a + [Delimiter] + b + [Delimiter] + c + [Delimiter] + "}" + Zeros(pad) == "{" + body + Zeros(pad);
    SeparateBraceBody(a, b, c);
    PaddedMessage(body, pad);
    SectionsOfPadded(body, pad);
  }

  /**
   * A received `{a;b;c}` whose closing brace is glued to its last section:
   * the content compared is `c` with the brace.
   */
  lemma ReceivedGluedBrace(a: seq<char>, b: seq<char>, c: seq<char>, pad: nat)
    requires PlainSections(a, b, c) && c[|c| - 1] == '}'
    requires pad > 0 && |a| + |b| + |c| + 3 + pad == BufLength
    ensures Received("{" + a + [Delimiter] + b + [Delimiter] + c + Zeros(pad), |a| + |b| + |c| + 3)
            == Commands(a, b, c, 3)
  {
    GluedBraceSections(a, b, c, pad);
    ReceivedOfThreeSections(a, b, c, "{" + a + [Delimiter] + b + [Delimiter] + c + Zeros(pad), |a| + |b| + |c| + 3);
  }

  /** A received `{a;b;c;}`: the brace is a token of its own, which ends the list. */
  lemma ReceivedSeparateBrace(a: seq<char>, b: seq<char>, c: seq<char>, pad: nat)
    requires PlainSections(a, b, c)
    requires pad > 0 && |a| + |b| + |c| + 5 + pad == BufLength
    ensures Received("{" + a + [Delimiter] + b + [Delimiter] + c + [Delimiter] + "}" + Zeros(pad), |a| + |b| + |c| + 5)
            == Commands(a, b, c, 3)
  {
    SeparateBraceSections(a, b, c, pad);
    ReceivedOfThreeSections(a, b, c, "{" + a + [Delimiter] + b + [Delimiter] + c + [Delimiter] + "}" + Zeros(pad),
                            |a| + |b| + |c| + 5);
  }

  /** `{Manual;Increment;goHome1}` issues nothing, since its content reads `goHome1}`. */
  lemma GoHome1GluedMessage()
    ensures Received("{" + "Manual" + ";" + "Increment" + ";" + "goHome1}" + Zeros(24), 26) == []
  {
    ReceivedGluedBrace("Manual", "Increment", "goHome1}", 24);
    BraceGluedContentIssuesNothing();
  }

  /** `{Manual;Increment;goHome1;}` sends motor 1 home. */
  lemma GoHome1SeparateMessage()
    ensures Received("{" + "Manual" + ";" + "Increment" + ";" + "goHome1" + ";" + "}" + Zeros(23), 27)
            == [ManualHome(Motor1)]
  {
    ReceivedSeparateBrace("Manual", "Increment", "goHome1", 23);
    BraceGluedContentIssuesNothing();
  }

  // ---------------------------------------------------------------------------
  // The module state: ParsedMsg and the issued calls
  // ---------------------------------------------------------------------------

  /** One more token taken by the parsing loop. */
  lemma TokensAdvance(body: seq<char>, pos: nat, tokens: seq<seq<char>>, c: nat)
    requires pos <= |body| && c <= |tokens| && TokensFrom(body, pos) == tokens[c..]
    requires Strtok(body, pos).Some?
    ensures c < |tokens| && tokens[c] == Strtok(body, pos).value.token
    ensures TokensFrom(body, Strtok(body, pos).value.next) == tokens[c + 1..]
    ensures tokens[..c] + [tokens[c]] == tokens[..c + 1]
  {
  }

  /** When the parsing loop ends, it has stored exactly the kept sections. */
  lemma KeptAtExit(body: seq<char>, pos: nat, tokens: seq<seq<char>>, c: nat)
    requires pos <= |body| && c <= SectionNbr && c <= |tokens| && TokensFrom(body, pos) == tokens[c..]
    requires forall i :: 0 <= i < c ==> !ClosesMessage(tokens[i])
    requires Strtok(body, pos).None? || c == SectionNbr || ClosesMessage(Strtok(body, pos).value.token)
    ensures Kept(tokens) == tokens[..c]
  {
    LeadingSectionsSplit(tokens, c);
    if Strtok(body, pos).None? {
      assert tokens[c..] == [];
    } else if c < SectionNbr {
      assert ClosesMessage(tokens[c]);
    }
  }

  class Hmi {
    /** `ParsedMsg[SECTION_NBR][SECTION_LENGTH]` */
    var parsedMsg: array2<char>
    /** The calls issued to the movement manager so far. */
    var issued: seq<MovementCmd>

    ghost predicate Valid()
      reads this`parsedMsg
    {
      parsedMsg.Length0 == SectionNbr && parsedMsg.Length1 == SectionLength
    }

    /** `ParsedMsg` holds the given sections, each in its slot as `strncpy` leaves it, and zeros elsewhere. */
    ghost predicate Holds(sections: seq<seq<char>>)
      reads this`parsedMsg, parsedMsg
      requires Valid()
    {
      forall i, j :: 0 <= i < SectionNbr && 0 <= j < SectionLength ==> parsedMsg[i, j] == Cell(sections, i, j)
    }

    constructor ()
      ensures Valid() && fresh(parsedMsg) && Holds([]) && issued == []
    {
      parsedMsg := new char[SectionNbr, SectionLength]((_, _) => Nul);
      issued := [];
    }

    /** The bytes of slot i. */
    function RowAt(i: nat): (r: seq<char>)
      reads this`parsedMsg, parsedMsg
      requires Valid() && i < SectionNbr
      ensures |r| == SectionLength && forall j :: 0 <= j < SectionLength ==> r[j] == parsedMsg[i, j]
    {
      var a := parsedMsg;
      seq(SectionLength, j reads a requires 0 <= j < a.Length1 && i < a.Length0 => a[i, j])
    }

    /** Slot i as `strcmp` reads it. */
    function Section(i: nat): seq<char>
      reads this`parsedMsg, parsedMsg
      requires Valid() && i < SectionNbr
    {
      CString(RowAt(i))
    }

    lemma SectionOfHeld(sections: seq<seq<char>>, i: nat)
      requires Valid() && |sections| <= SectionNbr && Holds(sections) && i < SectionNbr
      ensures Section(i) == CString(Table(sections)[i])
    {
      TableCells(sections);
      assert RowAt(i) == Table(sections)[i];
    }

    /** `memset(ParsedMsg, 0, sizeof(ParsedMsg))` */
    method ClearSections()
      requires Valid()
      modifies parsedMsg
      ensures Holds([])
    {
      forall i, j | 0 <= i < SectionNbr && 0 <= j < SectionLength {
        parsedMsg[i, j] := Nul;
      }
    }

    /** `strncpy(ParsedMsg[index], token, 19)` followed by the NUL at position 19. */
    method StoreSection(index: nat, token: seq<char>, ghost sections: seq<seq<char>>)
      requires Valid() && index == |sections| < SectionNbr && Holds(sections)
      modifies parsedMsg
      ensures Holds(sections + [token])
    {
      forall j | 0 <= j < SectionLength {
        parsedMsg[index, j] := if j < |token| && j < SectionLength - 1 then token[j] else Nul;
      }
      assert forall i :: 0 <= i < |sections| ==> (sections + [token])[i] == sections[i];
    }

    /** `ManagerHMI_ParseJson(msg, maxlength, &sectionNbr)`, with `prior` the old value of `*sectionNbr`. */
    method ParseJson(msg: seq<char>, maxLength: nat, prior: nat) returns (sectionNbr: nat)
      requires Valid() && 1 <= maxLength <= |msg|
      modifies parsedMsg
      ensures Holds(SectionsOf(msg, maxLength))
      ensures sectionNbr == ReportedNbr(msg, maxLength, prior)
    {
      ClearSections();
      sectionNbr := prior;
      if msg[0] != '{' || msg[maxLength - 1] != '}' {
        return;
      }
      var body := CString(msg[1..]);
      var sectionCount := SplitSections(body);
      sectionNbr := sectionCount;
      if sectionCount >= SectionNbr {
        sectionNbr := 0;
        return;
      }
    }

    /** The `strtok` loop of `ManagerHMI_ParseJson` over the text after `{`. */
    method SplitSections(body: seq<char>) returns (sectionCount: nat)
      requires Valid() && Holds([])
      modifies parsedMsg
      ensures sectionCount == |Kept(Tokens(body))|
      ensures Holds(Kept(Tokens(body)))
    {
      ghost var tokens := Tokens(body);
      sectionCount := 0;
      var pos := 0;
      var ptr := Strtok(body, 0);
      while ptr.Some? && sectionCount < SectionNbr
        invariant pos <= |body| && ptr == Strtok(body, pos)
        invariant sectionCount <= SectionNbr && sectionCount <= |tokens|
        invariant TokensFrom(body, pos) == tokens[sectionCount..]
        invariant forall i :: 0 <= i < sectionCount ==> !ClosesMessage(tokens[i])
        invariant Holds(tokens[..sectionCount])
        decreases |body| - pos
      {
        var token := ptr.value.token;
        if token[0] != '}' {
          TokensAdvance(body, pos, tokens, sectionCount);
          StoreSection(sectionCount, token, tokens[..sectionCount]);
          sectionCount := sectionCount + 1;
          pos := ptr.value.next;
          ptr := Strtok(body, pos);
        } else {
          break;
        }
      }
      KeptAtExit(body, pos, tokens, sectionCount);
    }
    /** `ManagerHMI_ExecuteManualIncrement(cmd)` */
    method ExecuteManualIncrement(cmd: string)
      modifies this`issued
      ensures issued == old(issued) + ToSeq(IncrementCommand(cmd))
    {
      IncrementCases(cmd);
      if cmd == "eversionR" {
        issued := issued + [ManualEversion(Right)];
      } else if cmd == "eversionL" {
        issued := issued + [ManualEversion(Left)];
      } else if cmd == "dorsiflexionU" {
        issued := issued + [ManualDorsiflexion(Up)];
      } else if cmd == "dorsiflexionD" {
        issued := issued + [ManualDorsiflexion(Down)];
      } else if cmd == "extensionU" {
        issued := issued + [ManualExtension(Up)];
      } else if cmd == "extensionD" {
        issued := issued + [ManualExtension(Down)];
      } else if cmd == "goHome1" {
        issued := issued + [ManualHome(Motor1)];
      } else if cmd == "goHome2" {
        issued := issued + [ManualHome(Motor2)];
      } else if cmd == "goHome3" {
        issued := issued + [ManualHome(Motor3)];
      } else if cmd == "goHome" {
        issued := issued + [ManualHomeAll];
      }
    }

    /** `ManagerHMI_ExecutePlanCmd(cmd, size)`: only the size check and the calls it makes. */
    method ExecutePlanCmd(size: nat)
      modifies this`issued
      ensures issued == old(issued) + PlanCommands(size)
    {
      if size > ContentFirstExerciseSection {
        var rest := size - ContentFirstExerciseSection;
        if rest % ExerciseSectionNbr == 0 {
          var exNbr := rest / ExerciseSectionNbr;
          for i := 0 to exNbr
            invariant issued == old(issued) + PlanCalls(i)
          {
            issued := issued + [AddExercise(i)];
            issued := issued + [SetFinalPos(i)];
          }
        }
      }
    }

    /** `ManagerHMI_ExecuteControlCmd(cmd)`: it compares slot 2 itself, not its argument. */
    method ExecuteControlCmd(cmd: string)
      requires Valid()
      modifies this`issued
      ensures issued == old(issued) + ToSeq(ControlCommand(old(Section(ContentSection))))
    {
      var content := Section(ContentSection);
      ghost var before := issued;
      ControlDispatch(content);
      if content == "Start" {
        issued := issued + [StartExercise];
      } else if content == "Next" {
        issued := issued + [NextExercise];
      } else if content == "Pause" {
      } else if content == "Stop" {
        issued := issued + [StopExercise];
      } else {
        assert ControlCommand(content) == None;
      }
      assert issued == before + ToSeq(ControlCommand(content));
    }

    /** `ManagerHMI_ExecuteJson(sectionNbr)` */
    method ExecuteJson(sectionNbr: nat)
      requires Valid()
      modifies this`issued
      ensures issued == old(issued) + Commands(old(Section(ModeSection)), old(Section(ActionSection)), old(Section(ContentSection)), sectionNbr)
    {
      var mode, action, content := Section(ModeSection), Section(ActionSection), Section(ContentSection);
      if sectionNbr >= 3 {
        if mode == "Manual" {
          if action == "Increment" {
            ExecuteManualIncrement(content);
          }
        } else if mode == "Auto" {
          if action == "Plan" {
            ExecutePlanCmd(sectionNbr - ContentSection - 1);
          } else if action == "Control" {
            ExecuteControlCmd(content);
          }
        }
      }
    }

    /**
     * `ManagerHMI_ReceiveJSON`, the read buffer `buf` and its `size` given:
     * a message is parsed and executed only when `0 < size < 50`.
     */
    method ReceiveJson(buf: seq<char>, size: nat)
      requires Valid() && |buf| == BufLength
      modifies this`issued, parsedMsg
      ensures 0 < size < BufLength ==> Holds(SectionsOf(buf, size))
      ensures !(0 < size < BufLength) ==> unchanged(parsedMsg)
      ensures issued == old(issued) + Received(buf, size)
    {
      if size > 0 && size < BufLength {
        var sectionNbr := ParseJson(buf, size, 0);
        ghost var sections := SectionsOf(buf, size);
        KeptStopsAtBrace(Tokens(CString(buf[1..])));
        SectionOfHeld(sections, ModeSection);
        SectionOfHeld(sections, ActionSection);
        SectionOfHeld(sections, ContentSection);
        ExecuteJson(sectionNbr);
      }
    }
  }
}
