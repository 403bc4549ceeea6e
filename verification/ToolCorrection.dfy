/** The correction sent back for a refused tool call: shortened, detail by detail, until its JSON
    fits two kibibytes. Its parts are dropped from their ends, the least useful first, and the
    message is cut only when nothing else is left; whatever the texts and however their characters
    are escaped, this always comes to an end within the bound. */
module ToolCorrection {
  import opened Wrappers
  import opened Utf16
  import opened Json
  import opened JsonSize

  const MAX_BYTES := 2 * 1024
  const ELLIPSIS: Unit := 0x2026

  datatype Code =
    | INVALID_JSON | QUOTE_NOT_EXACT | OBSERVED_VALUE_MISMATCH | UNKNOWN_EVIDENCE_REF | MISSING_EVIDENCE_KIND
    | CITATION_NOT_AVAILABLE | INVALID_EVIDENCE_STAGE | INVALID_ARGUMENTS | UNKNOWN_COMMAND | UNKNOWN_TOOL
    | TOOL_GROUP_REQUIRED | COMMAND_NOT_ALLOWED

  function CodeText(code: Code): (s: string)
    ensures |s| <= 23
  {
    match code
    case INVALID_JSON => "INVALID_JSON"
    case QUOTE_NOT_EXACT => "QUOTE_NOT_EXACT"
    case OBSERVED_VALUE_MISMATCH => "OBSERVED_VALUE_MISMATCH"
    case UNKNOWN_EVIDENCE_REF => "UNKNOWN_EVIDENCE_REF"
    case MISSING_EVIDENCE_KIND => "MISSING_EVIDENCE_KIND"
    case CITATION_NOT_AVAILABLE => "CITATION_NOT_AVAILABLE"
    case INVALID_EVIDENCE_STAGE => "INVALID_EVIDENCE_STAGE"
    case INVALID_ARGUMENTS => "INVALID_ARGUMENTS"
    case UNKNOWN_COMMAND => "UNKNOWN_COMMAND"
    case UNKNOWN_TOOL => "UNKNOWN_TOOL"
    case TOOL_GROUP_REQUIRED => "TOOL_GROUP_REQUIRED"
    case COMMAND_NOT_ALLOWED => "COMMAND_NOT_ALLOWED"
  }

  lemma CodeIsPlain(code: Code)
    ensures PlainText(CodeText(code))
  {
    GroupCodesArePlain(code);
    ValueCodesArePlain(code);
    CitationCodesArePlain(code);
    ArgumentCodesArePlain(code);
    UnknownCodesArePlain(code);
    hide CodeText, PlainText;
  }

  lemma ArgumentCodesArePlain(code: Code)
    ensures code in {INVALID_JSON, INVALID_ARGUMENTS, QUOTE_NOT_EXACT} ==> PlainText(CodeText(code))
  {
  }

  lemma UnknownCodesArePlain(code: Code)
    ensures code in {UNKNOWN_COMMAND, UNKNOWN_TOOL, UNKNOWN_EVIDENCE_REF} ==> PlainText(CodeText(code))
  {
  }

  lemma GroupCodesArePlain(code: Code)
    ensures code in {TOOL_GROUP_REQUIRED, COMMAND_NOT_ALLOWED} ==> PlainText(CodeText(code))
  {
  }

  lemma ValueCodesArePlain(code: Code)
    ensures code in {OBSERVED_VALUE_MISMATCH, MISSING_EVIDENCE_KIND} ==> PlainText(CodeText(code))
  {
  }

  lemma CitationCodesArePlain(code: Code)
    ensures code in {CITATION_NOT_AVAILABLE, INVALID_EVIDENCE_STAGE} ==> PlainText(CodeText(code))
  {
  }

  datatype Issue = Issue(path: Text, expected: Text)

  datatype Correction = Correction(
    code: Code, criterionId: Option<Text>, requiredGroup: Option<Text>, error: Text, issues: seq<Issue>,
    suggestions: seq<Text>, nextAction: Text)

  /** The text, or its beginning and an ellipsis, in at most `limit` units. */
  function BoundedText(text: Text, limit: nat): (r: Text)
    requires limit > 0
    ensures |r| <= limit
    ensures |text| <= limit ==> r == text
    ensures |text| > limit ==> r == text[..limit - 1] + [ELLIPSIS]
  {
    if |text| <= limit then text else text[..limit - 1] + [ELLIPSIS]
  }

  // ---------------------------------------------------------------------------------------
  // The JSON of a correction

  datatype Name =
    | ACCEPTED | CODE | CRITERION_ID | REQUIRED_GROUP | ERROR | ISSUES | SUGGESTIONS | NEXT_ACTION | RETRYABLE
    | PATH | EXPECTED

  function NameText(n: Name): (s: string)
    ensures |s| <= 13
  {
    match n
    case ACCEPTED => "accepted"
    case CODE => "code"
    case CRITERION_ID => "criterionId"
    case REQUIRED_GROUP => "requiredGroup"
    case ERROR => "error"
    case ISSUES => "issues"
    case SUGGESTIONS => "suggestions"
    case NEXT_ACTION => "nextAction"
    case RETRYABLE => "retryable"
    case PATH => "path"
    case EXPECTED => "expected"
  }

  function Key(n: Name): Text { Literal(NameText(n)) }

  function IssueJson(i: Issue): Value { Obj([Field(Key(PATH), Str(i.path)), Field(Key(EXPECTED), Str(i.expected))]) }

  function IssuesJson(issues: seq<Issue>): seq<Value>
  {
    if issues == [] then [] else IssuesJson(issues[..|issues| - 1]) + [IssueJson(issues[|issues| - 1])]
  }

  function TextsJson(texts: seq<Text>): seq<Value>
  {
    if texts == [] then [] else TextsJson(texts[..|texts| - 1]) + [Str(texts[|texts| - 1])]
  }

  function Head(code: Code): seq<Member>
  {
    [Field(Key(ACCEPTED), Bool(false)), Field(Key(CODE), Str(Literal(CodeText(code))))]
  }

  function Optional(key: Name, text: Option<Text>): seq<Member>
  {
    if text.Some? then [Field(Key(key), Str(text.value))] else []
  }

  function Tail(error: Text, issues: seq<Value>, suggestions: seq<Value>, nextAction: Text): seq<Member>
  {
    [Field(Key(ERROR), Str(error)), Field(Key(ISSUES), Arr(issues))]
    + [Field(Key(SUGGESTIONS), Arr(suggestions)), Field(Key(NEXT_ACTION), Str(nextAction))]
    + [Field(Key(RETRYABLE), Bool(true))]
  }

  function Members(c: Correction): seq<Member>
  {
    Head(c.code) + Optional(CRITERION_ID, c.criterionId) + Optional(REQUIRED_GROUP, c.requiredGroup)
    + Tail(c.error, IssuesJson(c.issues), TextsJson(c.suggestions), c.nextAction)
  }

  function Size(c: Correction): nat { JsonBytes(Obj(Members(c))) }

  /** Printable ASCII that JSON writes as it is. */
  predicate PlainText(s: string)
  {
    forall i :: 0 <= i < |s| ==> ' ' <= s[i] <= '~' && s[i] != '"' && s[i] != '\\'
  }

  lemma PlainLiteral(s: string)
    requires PlainText(s)
    ensures StringBytes(Literal(s)) == |s| + 2
  {
    assert Plain(Literal(s));
    PlainBytes(Literal(s), |s|);
  }

  lemma KeyBytes(n: Name)
    ensures StringBytes(Key(n)) <= 15
  {
    assert PlainText(NameText(n));
    hide NameText, StringBytes, Literal;
    PlainLiteral(NameText(n));
  }

  lemma CodeBytes(code: Code)
    ensures StringBytes(Literal(CodeText(code))) <= 25
  {
    hide CodeText, StringBytes, Literal;
    CodeIsPlain(code);
    PlainLiteral(CodeText(code));
  }

  lemma TextMember(key: Name, text: Text, limit: nat)
    requires |text| <= limit
    ensures MemberBytes(Field(Key(key), Str(text))) <= 18 + 6 * limit
  {
    hide Key;
    KeyBytes(key);
    BytesBounds(text, 0, |text|);
  }

  lemma FieldBytesSnoc(fields: seq<Member>, f: Member)
    ensures FieldBytes(fields + [f]) == FieldBytes(fields) + MemberBytes(f)
  {
  }

  lemma {:induction false} FieldBytesConcat(a: seq<Member>, b: seq<Member>)
    ensures FieldBytes(a + b) == FieldBytes(a) + FieldBytes(b)
  {
    hide MemberBytes;
    if b == [] {
      assert a + b == a;
    } else {
      var front, last := b[..|b| - 1], b[|b| - 1];
      FieldBytesConcat(a, front);
      assert a + b == (a + front) + [last];
      FieldBytesSnoc(a + front, last);
    }
  }

  lemma OneField(a: Member)
    ensures FieldBytes([a]) == MemberBytes(a)
  {
  }

  lemma TwoFields(a: Member, b: Member)
    ensures FieldBytes([a, b]) == MemberBytes(a) + MemberBytes(b)
  {
    hide MemberBytes, FieldBytes;
    OneField(a);
    FieldBytesSnoc([a], b);
    assert [a] + [b] == [a, b];
  }

  lemma OptionalBytes(key: Name, text: Option<Text>, limit: nat)
    requires text.Some? ==> |text.value| <= limit
    ensures FieldBytes(Optional(key, text)) <= 18 + 6 * limit && |Optional(key, text)| <= 1
  {
    hide Key, MemberBytes;
    if text.Some? {
      TextMember(key, text.value, limit);
      OneField(Field(Key(key), Str(text.value)));
    }
  }

  lemma HeadBytes(code: Code)
    ensures FieldBytes(Head(code)) <= 62
  {
    hide Key, StringBytes, Literal, CodeText, FieldBytes;
    KeyBytes(ACCEPTED);
    KeyBytes(CODE);
    CodeBytes(code);
    TwoFields(Head(code)[0], Head(code)[1]);
  }

  lemma TailBytes(error: Text)
    requires |error| <= 100
    ensures FieldBytes(Tail(error, [], [], [])) <= 692
  {
    hide Key, FieldBytes;
    KeyBytes(ISSUES);
    KeyBytes(SUGGESTIONS);
    KeyBytes(RETRYABLE);
    TextMember(ERROR, error, 100);
    TextMember(NEXT_ACTION, [], 0);
    hide StringBytes;
    TailParts(Field(Key(ERROR), Str(error)), Field(Key(ISSUES), Arr([])), Field(Key(SUGGESTIONS), Arr([])),
              Field(Key(NEXT_ACTION), Str([])), Field(Key(RETRYABLE), Bool(true)));
  }

  lemma TailParts(a: Member, b: Member, c: Member, d: Member, e: Member)
    ensures FieldBytes([a, b] + [c, d] + [e])
         == MemberBytes(a) + MemberBytes(b) + MemberBytes(c) + MemberBytes(d) + MemberBytes(e)
  {
    hide FieldBytes, MemberBytes;
    TwoFields(a, b);
    TwoFields(c, d);
    OneField(e);
    FieldBytesConcat([a, b], [c, d]);
    FieldBytesConcat([a, b] + [c, d], [e]);
  }

  /** Everything optional is gone and the message is short. */
  predicate Barest(c: Correction)
  {
    c.issues == [] && c.suggestions == [] && c.nextAction == [] && |c.error| <= 100
  }

  /** The texts are bounded as they were on construction. */
  predicate Bounded(c: Correction)
  {
    && (c.criterionId.Some? ==> |c.criterionId.value| <= 160)
    && (c.requiredGroup.Some? ==> |c.requiredGroup.value| <= 40)
  }

  /** However its characters are escaped, what cannot be shortened further fits. */
  lemma BarestFits(c: Correction)
    requires Barest(c) && Bounded(c)
    ensures Size(c) <= MAX_BYTES
  {
    hide Head, Tail, Optional, FieldBytes;
    var head, tail := Head(c.code), Tail(c.error, [], [], []);
    var a, b := Optional(CRITERION_ID, c.criterionId), Optional(REQUIRED_GROUP, c.requiredGroup);
    HeadBytes(c.code);
    OptionalBytes(CRITERION_ID, c.criterionId, 160);
    OptionalBytes(REQUIRED_GROUP, c.requiredGroup, 40);
    TailBytes(c.error);
    FieldBytesConcat(head, a);
    FieldBytesConcat(head + a, b);
    FieldBytesConcat(head + a + b, tail);
    assert Members(c) == head + a + b + tail;
    PartsCount(c);
  }

  lemma PartsCount(c: Correction)
    ensures |Members(c)| <= 9
  {
  }

  // ---------------------------------------------------------------------------------------
  // Shortening

  /** One shortening step: the details of least use go first. */
  function Shorter(c: Correction): Correction
  {
    if |c.issues| > 1 then c.(issues := c.issues[..|c.issues| - 1])
    else if c.suggestions != [] then c.(suggestions := c.suggestions[..|c.suggestions| - 1])
    else if c.nextAction != [] then c.(nextAction := [])
    else if |c.error| > 100 then c.(error := BoundedText(c.error, 100))
    else c.(issues := [])
  }

  function Remaining(c: Correction): nat
  {
    |c.issues| + |c.suggestions| + (if c.nextAction == [] then 0 else 1) + (if |c.error| > 100 then 1 else 0)
  }

  function Fitted(c: Correction): (r: Correction)
    requires Bounded(c)
    ensures Size(r) <= MAX_BYTES && Bounded(r)
    ensures Size(c) <= MAX_BYTES ==> r == c
    decreases Remaining(c)
  {
    if Size(c) <= MAX_BYTES then c
    else
      TooLargeIsNotBarest(c);
      ShorterIsShorter(c);
      Fitted(Shorter(c))
  }

  lemma TooLargeIsNotBarest(c: Correction)
    requires Bounded(c) && Size(c) > MAX_BYTES
    ensures !Barest(c)
  {
    hide Size;
    if Barest(c) {
      BarestFits(c);
    }
  }

  lemma ShorterIsShorter(c: Correction)
    requires Bounded(c) && !Barest(c)
    ensures Remaining(Shorter(c)) < Remaining(c) && Bounded(Shorter(c))
  {
  }

  datatype Options = Options(
    code: Option<Code>, requiredGroup: Option<Text>, criterionId: Option<Text>, issues: seq<Issue>,
    suggestions: seq<Text>, nextAction: Option<Text>)

  /** Texts of at most this length, or none if absent or empty. */
  function Given(text: Option<Text>, limit: nat): Option<Text>
    requires limit > 0
  {
    if text.Some? && text.value != [] then Some(BoundedText(text.value, limit)) else None
  }

  function BoundedIssues(issues: seq<Issue>): (r: seq<Issue>)
    ensures |r| == (if |issues| < 3 then |issues| else 3)
    ensures forall i :: 0 <= i < |r| ==> |r[i].path| <= 120 && |r[i].expected| <= 300
    ensures forall i :: 0 <= i < |r| && |issues[i].path| <= 120 && |issues[i].expected| <= 300 ==> r[i] == issues[i]
  {
    var kept := if |issues| <= 3 then issues else issues[..3];
    seq(|kept|, i requires 0 <= i < |kept| => Issue(BoundedText(kept[i].path, 120), BoundedText(kept[i].expected, 300)))
  }

  function KnownFirst(names: seq<Text>, known: Text -> bool, max: nat): (r: seq<Text>)
    ensures |r| <= max && forall n :: n in r ==> n in names && known(n)
  {
    if names == [] || max == 0 then []
    else if known(names[0]) then [names[0]] + KnownFirst(names[1..], known, max - 1)
    else KnownFirst(names[1..], known, max)
  }

  /** The correction before it is measured; `known` are the command types, `retry` the default
      advice. */
  function Drafted(error: Text, o: Options, known: Text -> bool, retry: Text): (c: Correction)
    ensures Bounded(c)
  {
    Correction(if o.code.Some? then o.code.value else INVALID_ARGUMENTS, Given(o.criterionId, 160),
               Given(o.requiredGroup, 40), BoundedText(error, 600), BoundedIssues(o.issues),
               KnownFirst(o.suggestions, known, 2), BoundedText(if o.nextAction.Some? then o.nextAction.value else retry, 300))
  }

  function AllKnown(names: seq<Text>, known: Text -> bool): seq<Text>
  {
    if names == [] then [] else (if known(names[0]) then [names[0]] else []) + AllKnown(names[1..], known)
  }

  lemma {:induction false} KnownFirstAreFirst(names: seq<Text>, known: Text -> bool, max: nat)
    ensures var all := AllKnown(names, known);
      KnownFirst(names, known, max) == if |all| <= max then all else all[..max]
  {
    if names != [] {
      KnownFirstAreFirst(names[1..], known, max);
      if known(names[0]) && max > 0 {
        KnownFirstAreFirst(names[1..], known, max - 1);
      }
    }
  }

  predicate ShortText(text: Option<Text>, limit: nat) { text.Some? ==> 0 < |text.value| <= limit }

  /** Where no text is too long the correction says what it was given: all of it but issues beyond the
      third, and suggestions beyond the second that names a command; without a code the arguments are
      at fault, without advice there is the usual one. */
  lemma DraftIsVerbatim(error: Text, o: Options, known: Text -> bool, retry: Text)
    requires |error| <= 600 && ShortText(o.criterionId, 160) && ShortText(o.requiredGroup, 40)
    requires (o.nextAction.Some? ==> |o.nextAction.value| <= 300) && |retry| <= 300
    requires forall i :: 0 <= i < |o.issues| ==> |o.issues[i].path| <= 120 && |o.issues[i].expected| <= 300
    ensures var names := AllKnown(o.suggestions, known);
      Drafted(error, o, known, retry)
      == Correction(match o.code case Some(code) => code case None => INVALID_ARGUMENTS, o.criterionId, o.requiredGroup, error,
                    if |o.issues| < 3 then o.issues else o.issues[..3], if |names| < 2 then names else names[..2],
                    match o.nextAction case Some(text) => text case None => retry)
  {
    KnownFirstAreFirst(o.suggestions, known, 2);
    var bounded := BoundedIssues(o.issues);
    assert bounded == if |o.issues| < 3 then o.issues else o.issues[..3];
    hide KnownFirst, AllKnown;
  }

  /** An empty criterion or group is left out. */
  lemma EmptyIsLeftOut(error: Text, o: Options, known: Text -> bool, retry: Text)
    ensures o.criterionId.None? || o.criterionId.value == [] ==> Drafted(error, o, known, retry).criterionId.None?
    ensures o.requiredGroup.None? || o.requiredGroup.value == [] ==> Drafted(error, o, known, retry).requiredGroup.None?
  {
  }

  lemma CodesDiffer(a: Code, b: Code)
    requires CodeText(a) == CodeText(b)
    ensures a == b
  {
    var s, t := CodeText(a), CodeText(b);
    assert |s| == |t| && (|s| > 0 ==> s[0] == t[0]) && (|s| > 8 ==> s[8] == t[8]);
  }

  // ---------------------------------------------------------------------------------------
  // What the JSON says

  lemma NamesDiffer(a: Name, b: Name)
    requires Key(a) == Key(b)
    ensures a == b
  {
    var s, t := NameText(a), NameText(b);
    assert |Key(a)| == |s| && |Key(b)| == |t|;
    assert |s| > 0 && Key(a)[0] == s[0] as int as Unit && Key(b)[0] == t[0] as int as Unit;
  }

  lemma {:induction false} GetAfter(fields: seq<Member>, more: seq<Member>, key: Text)
    ensures Get(fields + more, key) == if Has(fields, key) then Get(fields, key) else Get(more, key)
  {
    if fields != [] && fields[0].key != key {
      assert (fields + more)[1..] == fields[1..] + more;
      GetAfter(fields[1..], more, key);
      assert Has(fields, key) <==> Has(fields[1..], key) by {
        if Has(fields, key) {
          var i :| 0 <= i < |fields| && fields[i].key == key;
          assert fields[1..][i - 1].key == key;
        }
      }
    } else if fields == [] {
      assert fields + more == more;
    }
  }

  lemma HeadSays(code: Code, key: Name)
    ensures Get(Head(code), Key(key))
         == match key case ACCEPTED => Some(Bool(false)) case CODE => Some(Str(Literal(CodeText(code)))) case _ => None
  {
    hide CodeText, NameText;
    NamesDifferFrom(ACCEPTED, key);
    NamesDifferFrom(CODE, key);
    assert Head(code)[1..] == [Field(Key(CODE), Str(Literal(CodeText(code))))] && Head(code)[1..][1..] == [];
  }

  lemma NamesDifferFrom(a: Name, b: Name)
    ensures Key(a) == Key(b) <==> a == b
  {
    if Key(a) == Key(b) {
      NamesDiffer(a, b);
    }
    hide Key;
  }

  lemma OptionalSays(name: Name, text: Option<Text>, key: Name)
    ensures Get(Optional(name, text), Key(key)) == if key == name && text.Some? then Some(Str(text.value)) else None
  {
    hide NameText;
    NamesDifferFrom(name, key);
    if text.Some? {
      assert Optional(name, text)[1..] == [];
    }
  }

  lemma TailSays(error: Text, issues: seq<Value>, suggestions: seq<Value>, nextAction: Text, key: Name)
    ensures Get(Tail(error, issues, suggestions, nextAction), Key(key))
         == match key
            case ERROR => Some(Str(error))
            case ISSUES => Some(Arr(issues))
            case SUGGESTIONS => Some(Arr(suggestions))
            case NEXT_ACTION => Some(Str(nextAction))
            case RETRYABLE => Some(Bool(true))
            case _ => None
  {
    hide NameText;
    forall n: Name ensures Key(n) == Key(key) <==> n == key {
      NamesDifferFrom(n, key);
    }
    hide Key;
    var tail := Tail(error, issues, suggestions, nextAction);
    assert tail[1..] == [Field(Key(ISSUES), Arr(issues)), Field(Key(SUGGESTIONS), Arr(suggestions)),
                         Field(Key(NEXT_ACTION), Str(nextAction)), Field(Key(RETRYABLE), Bool(true))];
    assert tail[2..] == tail[1..][1..] && tail[3..] == tail[2..][1..] && tail[4..] == tail[3..][1..];
    assert tail[4..][1..] == [];
    assert Get(tail[4..], Key(key)) == if key == RETRYABLE then Some(Bool(true)) else None;
    assert Get(tail[3..], Key(key)) == if key == NEXT_ACTION then Some(Str(nextAction)) else Get(tail[4..], Key(key));
    assert Get(tail[2..], Key(key)) == if key == SUGGESTIONS then Some(Arr(suggestions)) else Get(tail[3..], Key(key));
    assert Get(tail[1..], Key(key)) == if key == ISSUES then Some(Arr(issues)) else Get(tail[2..], Key(key));
  }

  /** What a reader of the correction's JSON finds under each name: that it is no acceptance, may be
      tried again, and everything it is made of; and nothing else. */
  lemma CorrectionSays(c: Correction, key: Name)
    ensures Get(Members(c), Key(key))
         == match key
            case ACCEPTED => Some(Bool(false))
            case CODE => Some(Str(Literal(CodeText(c.code))))
            case CRITERION_ID => if c.criterionId.Some? then Some(Str(c.criterionId.value)) else None
            case REQUIRED_GROUP => if c.requiredGroup.Some? then Some(Str(c.requiredGroup.value)) else None
            case ERROR => Some(Str(c.error))
            case ISSUES => Some(Arr(EachIssue(c.issues)))
            case SUGGESTIONS => Some(Arr(EachText(c.suggestions)))
            case NEXT_ACTION => Some(Str(c.nextAction))
            case RETRYABLE => Some(Bool(true))
            case PATH => None
            case EXPECTED => None
  {
    var issues, suggestions := IssuesJson(c.issues), TextsJson(c.suggestions);
    IssuesInOrder(c.issues);
    TextsInOrder(c.suggestions);
    HeadSays(c.code, key);
    OptionalSays(CRITERION_ID, c.criterionId, key);
    OptionalSays(REQUIRED_GROUP, c.requiredGroup, key);
    TailSays(c.error, issues, suggestions, c.nextAction, key);
    hide Head, Optional, Tail, Key, CodeText, IssuesJson, TextsJson;
    var head, a, b := Head(c.code), Optional(CRITERION_ID, c.criterionId), Optional(REQUIRED_GROUP, c.requiredGroup);
    GetAfter(head, a, Key(key));
    GetAfter(head + a, b, Key(key));
    GetAfter(head + a + b, Tail(c.error, issues, suggestions, c.nextAction), Key(key));
  }

  /** Every issue with its path and what was expected there. */
  function EachIssue(issues: seq<Issue>): (r: seq<Value>)
    ensures |r| == |issues|
    ensures forall i :: 0 <= i < |r| ==>
              r[i] == Obj([Field(Key(PATH), Str(issues[i].path)), Field(Key(EXPECTED), Str(issues[i].expected))])
  {
    seq(|issues|, i requires 0 <= i < |issues| =>
      Obj([Field(Key(PATH), Str(issues[i].path)), Field(Key(EXPECTED), Str(issues[i].expected))]))
  }

  function EachText(texts: seq<Text>): (r: seq<Value>)
    ensures |r| == |texts| && forall i :: 0 <= i < |r| ==> r[i] == Str(texts[i])
  {
    seq(|texts|, i requires 0 <= i < |texts| => Str(texts[i]))
  }

  lemma {:induction false} IssuesInOrder(issues: seq<Issue>)
    ensures IssuesJson(issues) == EachIssue(issues)
  {
    if issues != [] {
      IssuesInOrder(issues[..|issues| - 1]);
    }
  }

  lemma {:induction false} TextsInOrder(texts: seq<Text>)
    ensures TextsJson(texts) == EachText(texts)
  {
    if texts != [] {
      TextsInOrder(texts[..|texts| - 1]);
    }
  }

  /** What shortening keeps: routing is never touched, lists lose only their ends, and a part goes
      only after all the parts of less use. */
  predicate Shortened(c: Correction, r: Correction)
  {
    && r.code == c.code && r.criterionId == c.criterionId && r.requiredGroup == c.requiredGroup
    && r.issues <= c.issues && r.suggestions <= c.suggestions
    && (r.nextAction == c.nextAction || r.nextAction == [])
    && (r.error == c.error || (|c.error| > 100 && r.error == BoundedText(c.error, 100)))
    && (r.suggestions != c.suggestions ==> |r.issues| <= 1)
    && (r.nextAction != c.nextAction ==> |r.issues| <= 1 && r.suggestions == [])
    && (r.error != c.error ==> |r.issues| <= 1 && r.suggestions == [] && r.nextAction == [])
    && (r.issues == [] && c.issues != [] ==> r.suggestions == [] && r.nextAction == [] && |r.error| <= 100)
  }

  lemma {:induction false} FittedIsShortened(c: Correction)
    requires Bounded(c)
    ensures Shortened(c, Fitted(c))
    decreases Remaining(c)
  {
    if Size(c) > MAX_BYTES {
      TooLargeIsNotBarest(c);
      ShorterIsShorter(c);
      hide Size, Shorter, Remaining, Shortened, Barest, Bounded;
      FittedIsShortened(Shorter(c));
      StepShortens(c, Fitted(Shorter(c)));
    }
  }

  lemma StepShortens(c: Correction, r: Correction)
    requires !Barest(c) && Shortened(Shorter(c), r)
    ensures Shortened(c, r)
  {
  }

  /** For any texts the correction fits, keeps code, criterion and group, and drops only what it
      has to, the least useful first. */
  method BuildCorrection(error: Text, o: Options, known: Text -> bool, retry: Text) returns (result: Correction)
    ensures Size(result) <= MAX_BYTES
    ensures result == Fitted(Drafted(error, o, known, retry))
    ensures Shortened(Drafted(error, o, known, retry), result)
  {
    result := Drafted(error, o, known, retry);
    ghost var draft := result;
    FittedIsShortened(draft);
    hide Size, Drafted, Shortened, Shorter, Remaining, Barest, Bounded;
    while Size(result) > MAX_BYTES
      invariant Bounded(result) && Fitted(result) == Fitted(draft)
      decreases Remaining(result)
    {
      TooLargeIsNotBarest(result);
      ShorterIsShorter(result);
      result := Shorter(result);
    }
  }
}
