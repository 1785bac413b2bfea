/** The questionnaire submission handler: the validation that builds the
    list of error messages from the posted fields, and the decision to store
    the response only when that list is empty. */
module Submission {
  import opened Wrappers
  import opened Records

  /** What `filter_input(INPUT_POST, name, FILTER_VALIDATE_INT)` returns:
      `null` when the field was not posted, `false` when it is not an
      integer, and the integer otherwise. */
  datatype IntInput = Missing | Invalid | Int(value: int)

  /** A posted value: a string, or an array (the form can post `name[]=…`)
      with the given number of entries. */
  datatype Value = Text(text: string) | Nested(size: nat)

  /** The posted `answers` field: a string, or an array of answers by key
      (a PHP array, so its keys are distinct). */
  datatype AnswersField = Scalar(text: string) | Array(entries: map<string, Value>)

  /** The posted fields the handler reads; a field that was not posted is None. */
  datatype Form = Form(
    age: IntInput,
    gender: Option<Value>,
    income: IntInput,
    disability: Option<Value>,
    answers: Option<AnswersField>)

  /** The rules of the handler as written, and the ones it evidently intends
      (see the findings in the README). */
  datatype Rules = AsWritten | Intended

  const Genders: seq<string> := ["男性", "女性", "その他"]
  const Disabilities: seq<string> := ["あり", "なし"]

  /** The checks that can fail, each with the message it appends to `$errors`. */
  datatype Problem = BadAge | BadGender | BadIncome | BadDisability | MissingAnswers | BadAnswer
  {
    function Message(): string
    {
      match this
      case BadAge => "年齢が正しくありません。"
      case BadGender => "性別が正しくありません。"
      case BadIncome => "年収が正しくありません。"
      case BadDisability => "障害の有無が正しくありません。"
      case MissingAnswers => "回答データが不足しています。"
      case BadAnswer => "回答の内容が不正です。"
    }
  }

  /** `is_array($_POST['answers'] ?? [])`. */
  predicate AnswersIsArray(f: Form)
  {
    f.answers.None? || f.answers.value.Array?
  }

  /** The entries of `$_POST['answers'] ?? []` when it is an array. */
  function Answers(f: Form): map<string, Value>
    requires AnswersIsArray(f)
  {
    if f.answers.None? then map[] else f.answers.value.entries
  }

  // ---------------------------------------------------------------------
  // The single checks

  /** `$x === false || $x < 0` is false. A missing field gives `null`, and
      `null < 0` compares both sides as booleans (false < false), so as
      written a missing age or income passes. */
  predicate IntAccepted(x: IntInput, rules: Rules)
  {
    match x
    case Missing => rules == AsWritten
    case Invalid => false
    case Int(v) => v >= 0
  }

  /** `in_array($_POST[name] ?? '', $choices, true)`: strict comparison, so
      only a posted string equal to one of the choices is accepted. */
  predicate ChoiceAccepted(v: Option<Value>, choices: seq<string>)
  {
    v.Some? && v.value.Text? && v.value.text in choices
  }

  /** `preg_match('/^q([1-9]|10)$/', $key)`. PCRE's `$` also matches just
      before a final line feed, so as written `"q3\n"` matches too. */
  predicate KeyAccepted(key: string, rules: Rules)
  {
    key in QuestionIds ||
    (rules == AsWritten && |key| > 0 && key[|key| - 1] == '\n' && key[..|key| - 1] in QuestionIds)
  }

  /** PHP's leading white space for numeric strings. */
  predicate IsSpace(c: char)
  {
    c == ' ' || c == '\t' || c == '\n' || c == '\r' || c == '\U{000B}' || c == '\U{000C}'
  }

  predicate IsDigit(c: char)
  {
    '0' <= c <= '9'
  }

  /** s without its leading white space. */
  function TrimStart(s: string): (r: string)
    ensures |r| <= |s| && r == s[|s| - |r|..]
    ensures r == [] || !IsSpace(r[0])
    decreases |s|
  {
    if s != [] && IsSpace(s[0]) then TrimStart(s[1..]) else s
  }

  /** The leading run of decimal digits of s. */
  function DigitRun(s: string): (r: string)
    ensures r <= s && (forall i :: 0 <= i < |r| ==> IsDigit(r[i]))
    ensures |r| == |s| || !IsDigit(s[|r|])
    decreases |s|
  {
    if s != [] && IsDigit(s[0]) then [s[0]] + DigitRun(s[1..]) else []
  }

  /** The number a string of decimal digits denotes. */
  function DigitsValue(d: string): nat
    decreases |d|
  {
    if d == [] then 0
    else
      var c := d[|d| - 1];
      var digit := if IsDigit(c) then (c as int) - ('0' as int) else 0;
      DigitsValue(d[..|d| - 1]) * 10 + digit
  }

  /** `(int)$s` for a string: white space, an optional sign and the leading
      digits; anything after them is ignored and a string without leading
      digits is 0. */
  function TextToInt(s: string): int
  {
    var t := TrimStart(s);
    if t != [] && t[0] == '-' then 0 - DigitsValue(DigitRun(t[1..]))
    else if t != [] && t[0] == '+' then DigitsValue(DigitRun(t[1..]))
    else DigitsValue(DigitRun(t))
  }

  /** `(int)$value`: an array casts to 1 when it has entries and to 0 when
      empty. */
  function IntCast(v: Value): int
  {
    match v
    case Text(s) => TextToInt(s)
    case Nested(n) => if n > 0 then 1 else 0
  }

  /** `in_array((int)$value, [1, 2, 3, 4, 5], true)`. As written, any
      non-empty posted array passes as the answer 1. */
  predicate ValueAccepted(v: Value, rules: Rules)
  {
    (rules == AsWritten || v.Text?) && 1 <= IntCast(v) <= 5
  }

  /** One entry of the answer loop passes both tests. */
  predicate AnswerAccepted(key: string, v: Value, rules: Rules)
  {
    KeyAccepted(key, rules) && ValueAccepted(v, rules)
  }

  // ---------------------------------------------------------------------
  // The list of errors

  /** The messages of the four field checks, in the order they are appended. */
  function FieldErrors(f: Form, rules: Rules): seq<Problem>
  {
    (if IntAccepted(f.age, rules) then [] else [BadAge]) +
    (if ChoiceAccepted(f.gender, Genders) then [] else [BadGender]) +
    (if IntAccepted(f.income, rules) then [] else [BadIncome]) +
    (if ChoiceAccepted(f.disability, Disabilities) then [] else [BadDisability])
  }

  /** The message of the answer check: the missing-data message unless the
      field is an array of exactly ten entries, else the message for a bad
      entry, which the loop appends once and then stops. */
  function AnswerErrors(f: Form, rules: Rules): seq<Problem>
  {
    if !AnswersIsArray(f) || |Answers(f)| != 10 then [MissingAnswers]
    else if forall k :: k in Answers(f) ==> AnswerAccepted(k, Answers(f)[k], rules) then []
    else [BadAnswer]
  }

  /** `$errors` after the validation block. */
  function Errors(f: Form, rules: Rules): seq<Problem>
  {
    FieldErrors(f, rules) + AnswerErrors(f, rules)
  }

  /** The validation block: the four field checks, then the count check and
      the loop over the answers that stops at the first bad entry. */
  method Validate(f: Form, rules: Rules) returns (errors: seq<Problem>)
    ensures errors == Errors(f, rules)
  {
    errors := CheckFields(f, rules);
    var answerErrors := CheckAnswers(f, rules);
    errors := errors + answerErrors;
  }

  /** The four field checks, each appending its message. */
  method CheckFields(f: Form, rules: Rules) returns (errors: seq<Problem>)
    ensures errors == FieldErrors(f, rules)
  {
    errors := [];
    if !IntAccepted(f.age, rules) {
      errors := errors + [BadAge];
    }
    if !ChoiceAccepted(f.gender, Genders) {
      errors := errors + [BadGender];
    }
    if !IntAccepted(f.income, rules) {
      errors := errors + [BadIncome];
    }
    if !ChoiceAccepted(f.disability, Disabilities) {
      errors := errors + [BadDisability];
    }
  }

  /** The count check and the loop over the answers, which appends one
      message at the first bad entry and stops. */
  method CheckAnswers(f: Form, rules: Rules) returns (errors: seq<Problem>)
    ensures errors == AnswerErrors(f, rules)
  {
    errors := [];
    if !AnswersIsArray(f) || |Answers(f)| != 10 {
      errors := errors + [MissingAnswers];
    } else {
      var remaining := Answers(f).Keys;
      while remaining != {}
        invariant remaining <= Answers(f).Keys
        invariant forall k :: k in Answers(f) && k !in remaining ==> AnswerAccepted(k, Answers(f)[k], rules)
        invariant errors == []
        decreases |remaining|
      {
        var k :| k in remaining;
        if !AnswerAccepted(k, Answers(f)[k], rules) {
          errors := errors + [BadAnswer];
          break;
        }
        remaining := remaining - {k};
      }
    }
  }

  // ---------------------------------------------------------------------
  // The decision

  /** A stored response: the demographic fields and the answers to q1..q10
      in question order, as they are bound to the insert. A field that was
      not posted binds `null` (None), and so does an answer key that is
      absent from `$answers`. */
  datatype Response = Response(age: Option<int>, gender: string, income: Option<int>, disability: string,
                               answers: seq<Option<Value>>)

  /** What the handler does after validating: it ends with the joined error
      messages when there are any, and only otherwise reaches the insert. */
  datatype Outcome = Rejected(errors: seq<Problem>) | Stored(response: Response)

  /** `$age` or `$income` as bound to the insert: `null` for a field that was
      not posted, the integer otherwise (`false` never gets past validation). */
  function Bound(x: IntInput): (r: Option<int>)
    requires !x.Invalid?
    ensures r.None? <==> x.Missing?
    ensures r.Some? ==> x == Int(r.value)
  {
    match x
    case Missing => None
    case Int(v) => Some(v)
  }

  /** The fields a form that passed validation under either rule set is
      sure to have: no invalid number, listed choices, an answers array. */
  lemma AcceptedFields(f: Form, rules: Rules)
    requires Errors(f, rules) == []
    ensures AnswersIsArray(f)
    ensures !f.age.Invalid? && !f.income.Invalid?
    ensures f.gender.Some? && f.gender.value.Text? && f.gender.value.text in Genders
    ensures f.disability.Some? && f.disability.value.Text? && f.disability.value.text in Disabilities
  {
    AcceptedIff(f, rules);
  }

  /** The decision of the handler under the given rules. */
  function Submit(f: Form, rules: Rules): (r: Outcome)
    ensures r.Rejected? <==> Errors(f, rules) != []
    ensures r.Rejected? ==> r.errors == Errors(f, rules)
    ensures r.Stored? ==> AnswersIsArray(f)
  {
    var errors := Errors(f, rules);
    if errors != [] then Rejected(errors)
    else
      AcceptedFields(f, rules);
      Stored(Response(Bound(f.age), f.gender.value.text, Bound(f.income), f.disability.value.text,
                      InQuestionOrder(Answers(f))))
  }

  /** `$answers['q1']` to `$answers['q10']` in question order; an absent key
      reads as `null`. */
  function InQuestionOrder(entries: map<string, Value>): (r: seq<Option<Value>>)
    ensures |r| == |QuestionIds|
  {
    seq(|QuestionIds|, i requires 0 <= i < |QuestionIds| =>
      if QuestionIds[i] in entries then Some(entries[QuestionIds[i]]) else None)
  }

  /** The loop that binds `$answers['q1']` to `$answers['q10']`. */
  method BindAnswers(entries: map<string, Value>) returns (answers: seq<Option<Value>>)
    ensures answers == InQuestionOrder(entries)
  {
    answers := [];
    for i := 0 to |QuestionIds|
      invariant |answers| == i
      invariant forall m :: 0 <= m < i ==>
        (QuestionIds[m] in entries ==> answers[m] == Some(entries[QuestionIds[m]])) &&
        (QuestionIds[m] !in entries ==> answers[m] == None)
    {
      var qKey := QuestionIds[i];
      if qKey in entries {
        answers := answers + [Some(entries[qKey])];
      } else {
        answers := answers + [None];
      }
    }
  }

  /** The handler with the insert as a step: the response is stored only
      when validation left no error. */
  method HandleSubmission(f: Form, rules: Rules) returns (outcome: Outcome)
    ensures outcome == Submit(f, rules)
  {
    var errors := Validate(f, rules);
    if errors != [] {
      return Rejected(errors);
    }
    AcceptedFields(f, rules);
    var answers := BindAnswers(Answers(f));
    outcome := Stored(Response(Bound(f.age), f.gender.value.text, Bound(f.income), f.disability.value.text, answers));
  }

  // ---------------------------------------------------------------------
  // Properties of the validation

  /** Each message is in the list exactly when its check fails. */
  lemma ErrorsMeaning(f: Form, rules: Rules)
    ensures BadAge in Errors(f, rules) <==> !IntAccepted(f.age, rules)
    ensures BadGender in Errors(f, rules) <==> !ChoiceAccepted(f.gender, Genders)
    ensures BadIncome in Errors(f, rules) <==> !IntAccepted(f.income, rules)
    ensures BadDisability in Errors(f, rules) <==> !ChoiceAccepted(f.disability, Disabilities)
    ensures MissingAnswers in Errors(f, rules) <==> !AnswersIsArray(f) || |Answers(f)| != 10
    ensures BadAnswer in Errors(f, rules) <==>
      AnswersIsArray(f) && |Answers(f)| == 10 && exists k :: k in Answers(f) && !AnswerAccepted(k, Answers(f)[k], rules)
  {
    var age := if IntAccepted(f.age, rules) then [] else [BadAge];
    var gender := if ChoiceAccepted(f.gender, Genders) then [] else [BadGender];
    var income := if IntAccepted(f.income, rules) then [] else [BadIncome];
    var disability := if ChoiceAccepted(f.disability, Disabilities) then [] else [BadDisability];
    var answers := AnswerErrors(f, rules);
    assert Errors(f, rules) == age + gender + income + disability + answers;
    assert forall p :: p in Errors(f, rules) <==> p in age || p in gender || p in income || p in disability || p in answers;
  }

  /** Different problems have different messages, so the page tells which
      checks failed. */
  lemma MessagesDistinct(p: Problem, q: Problem)
    ensures p.Message() == q.Message() <==> p == q
  {
    if p != q {
      if p.Message()[0] == q.Message()[0] {
        assert {p, q} == {BadAge, BadIncome} || {p, q} == {MissingAnswers, BadAnswer};
        if {p, q} == {BadAge, BadIncome} {
          assert p.Message()[1] != q.Message()[1];
        } else {
          assert p.Message()[2] != q.Message()[2];
        }
      }
    }
  }

  /** The answer check adds at most one message, so there are at most five. */
  lemma AtMostOneAnswerError(f: Form, rules: Rules)
    ensures |AnswerErrors(f, rules)| <= 1
    ensures |Errors(f, rules)| <= 5
  {
  }

  /** A form passes exactly when every field check and every answer passes. */
  lemma AcceptedIff(f: Form, rules: Rules)
    ensures Errors(f, rules) == [] <==>
      && IntAccepted(f.age, rules) && IntAccepted(f.income, rules)
      && ChoiceAccepted(f.gender, Genders) && ChoiceAccepted(f.disability, Disabilities)
      && AnswersIsArray(f) && |Answers(f)| == 10
      && (forall k :: k in Answers(f) ==> AnswerAccepted(k, Answers(f)[k], rules))
  {
  }

  /** Under the intended rules an accepted form has a non-negative age and
      income, a listed gender and disability, and answers under exactly the
      keys q1..q10, each a string whose integer value is 1 to 5. */
  lemma AcceptedKeys(f: Form)
    requires Errors(f, Intended) == []
    ensures AnswersIsArray(f)
    ensures f.age.Int? && f.age.value >= 0 && f.income.Int? && f.income.value >= 0
    ensures f.gender.Some? && f.gender.value.Text? && f.gender.value.text in Genders
    ensures f.disability.Some? && f.disability.value.Text? && f.disability.value.text in Disabilities
    ensures Answers(f).Keys == set q | q in QuestionIds
    ensures forall i :: 0 <= i < |QuestionIds| ==> QuestionIds[i] in Answers(f)
    ensures forall k :: k in Answers(f) ==> Answers(f)[k].Text? && 1 <= IntCast(Answers(f)[k]) <= 5
  {
    AcceptedIff(f, Intended);
    var ids := set q | q in QuestionIds;
    assert Answers(f).Keys <= ids;
    IdsCount();
    SubsetOfSameSize(Answers(f).Keys, ids);
  }

  /** The ten question ids are distinct. */
  lemma IdsCount()
    ensures |set q | q in QuestionIds| == 10
  {
    forall i, j | 0 <= i < j < |QuestionIds| ensures QuestionIds[i] != QuestionIds[j] {
      if j == 9 {
        assert |QuestionIds[i]| == 2;
      } else {
        assert QuestionIds[i][1] != QuestionIds[j][1];
      }
    }
    DistinctCount(QuestionIds);
  }

  /** A list of distinct names has as many names as its set. */
  lemma {:induction false} DistinctCount(s: seq<string>)
    requires forall i, j :: 0 <= i < j < |s| ==> s[i] != s[j]
    ensures |set x | x in s| == |s|
    decreases |s|
  {
    if s != [] {
      var init := s[..|s| - 1];
      DistinctCount(init);
      assert (set x | x in s) == (set x | x in init) + {s[|s| - 1]};
      assert s[|s| - 1] !in init;
    }
  }

  /** A subset with as many elements as the whole set is the whole set. */
  lemma SubsetOfSameSize<T>(a: set<T>, b: set<T>)
    requires a <= b && |a| == |b|
    ensures a == b
  {
    if a != b {
      var x :| x in b && x !in a;
      assert a <= b - {x};
      SubsetSize(a, b - {x});
    }
  }

  lemma {:induction false} SubsetSize<T>(a: set<T>, b: set<T>)
    requires a <= b
    ensures |a| <= |b|
    decreases |b|
  {
    if a != {} {
      var x :| x in a;
      SubsetSize(a - {x}, b - {x});
    }
  }

  /** Under the intended rules a stored response carries the validated
      fields: a non-negative age and income, listed choices and the ten
      answers in question order, each a string whose integer value is 1 to 5. */
  lemma StoredResponse(f: Form)
    requires Submit(f, Intended).Stored?
    ensures var r := Submit(f, Intended).response;
      && r.age.Some? && f.age == Int(r.age.value) && r.age.value >= 0
      && r.income.Some? && f.income == Int(r.income.value) && r.income.value >= 0
      && f.gender == Some(Text(r.gender)) && r.gender in Genders
      && f.disability == Some(Text(r.disability)) && r.disability in Disabilities
      && |r.answers| == 10
      && (forall i :: 0 <= i < 10 ==> QuestionIds[i] in Answers(f) && r.answers[i] == Some(Answers(f)[QuestionIds[i]]))
      && (forall i :: 0 <= i < 10 ==> r.answers[i].Some? && r.answers[i].value.Text? && 1 <= IntCast(r.answers[i].value) <= 5)
  {
    AcceptedKeys(f);
    var r := Submit(f, Intended).response;
    forall i | 0 <= i < 10
      ensures QuestionIds[i] in Answers(f) && r.answers[i] == Some(Answers(f)[QuestionIds[i]])
      ensures r.answers[i].value.Text? && 1 <= IntCast(r.answers[i].value) <= 5
    {
      assert QuestionIds[i] in set q | q in QuestionIds;
    }
  }

  /** Under either rule set a stored response carries listed choices, `null`
      exactly for a number that was not posted and a non-negative number
      otherwise, and for each of q1..q10 the posted answer, or `null` when
      that key is absent; every posted entry casts to 1..5. */
  lemma StoredFields(f: Form, rules: Rules)
    requires Submit(f, rules).Stored?
    ensures var r := Submit(f, rules).response;
      && (r.age.None? <==> f.age.Missing?) && (r.age.Some? ==> f.age == Int(r.age.value) && r.age.value >= 0)
      && (r.income.None? <==> f.income.Missing?) && (r.income.Some? ==> f.income == Int(r.income.value) && r.income.value >= 0)
      && f.gender == Some(Text(r.gender)) && r.gender in Genders
      && f.disability == Some(Text(r.disability)) && r.disability in Disabilities
      && |r.answers| == 10
      && (forall i :: 0 <= i < 10 && QuestionIds[i] in Answers(f) ==> r.answers[i] == Some(Answers(f)[QuestionIds[i]]))
      && (forall i :: 0 <= i < 10 && QuestionIds[i] !in Answers(f) ==> r.answers[i] == None)
      && (forall i :: 0 <= i < 10 && r.answers[i].Some? ==> 1 <= IntCast(r.answers[i].value) <= 5)
  {
    AcceptedIff(f, rules);
  }

  /** `(int)` reads back the decimal spelling of a natural number. */
  lemma CastReadsDecimal(n: nat)
    ensures TextToInt(Decimal(n)) == n
  {
    DecimalDigits(n);
    var d := Decimal(n);
    assert TrimStart(d) == d;
    AllDigitsRun(d);
    DecimalValue(n);
  }

  /** The decimal spelling of n. */
  function Decimal(n: nat): (d: string)
    ensures d != []
    decreases n
  {
    var last := ['0' + ((n % 10) as char)];
    if n < 10 then last else Decimal(n / 10) + last
  }

  lemma {:induction false} DecimalDigits(n: nat)
    ensures forall i :: 0 <= i < |Decimal(n)| ==> IsDigit(Decimal(n)[i])
    decreases n
  {
    if n >= 10 {
      DecimalDigits(n / 10);
    }
  }

  lemma {:induction false} DecimalValue(n: nat)
    ensures DigitsValue(Decimal(n)) == n
    decreases n
  {
    var d := Decimal(n);
    if n >= 10 {
      DecimalValue(n / 10);
      assert d[..|d| - 1] == Decimal(n / 10);
    }
  }

  lemma {:induction false} AllDigitsRun(d: string)
    requires forall i :: 0 <= i < |d| ==> IsDigit(d[i])
    ensures DigitRun(d) == d
    decreases |d|
  {
    if d != [] {
      AllDigitsRun(d[1..]);
    }
  }

  // ---------------------------------------------------------------------
  // The findings, on the rules as written

  /** A form that posts ten good answers and valid choices. */
  function GoodForm(age: IntInput, income: IntInput, answerMap: map<string, Value>): Form
  {
    Form(age, Some(Text("女性")), income, Some(Text("なし")), Some(Array(answerMap)))
  }

  /** The answers "3" under q1..q10. */
  function GoodAnswers(): map<string, Value>
  {
    map q | q in QuestionIds :: Text("3")
  }

  lemma GoodAnswersFacts()
    ensures GoodAnswers().Keys == set q | q in QuestionIds
    ensures |GoodAnswers()| == 10
    ensures forall k :: k in GoodAnswers() ==> GoodAnswers()[k] == Text("3")
  {
    IdsCount();
    assert GoodAnswers().Keys == set q | q in QuestionIds;
  }

  lemma CastOfThree()
    ensures IntCast(Text("3")) == 3
  {
    CastReadsDecimal(3);
    assert Decimal(3) == "3";
  }

  /** A form with valid choices, accepted numbers and ten accepted answers passes. */
  lemma GoodFormPasses(age: IntInput, income: IntInput, answerMap: map<string, Value>, rules: Rules)
    requires IntAccepted(age, rules) && IntAccepted(income, rules) && |answerMap| == 10
    requires forall k :: k in answerMap ==> AnswerAccepted(k, answerMap[k], rules)
    ensures Errors(GoodForm(age, income, answerMap), rules) == []
  {
    var f := GoodForm(age, income, answerMap);
    assert ChoiceAccepted(f.gender, Genders) && ChoiceAccepted(f.disability, Disabilities);
    assert FieldErrors(f, rules) == [];
    assert Answers(f) == answerMap;
  }

  /** As written, a form without an age and without an income is accepted,
      and the insert binds `null` for both; the analysis page's brackets then
      count that response among the oldest and the highest earners. */
  lemma MissingAgeAccepted()
    ensures Errors(GoodForm(Missing, Missing, GoodAnswers()), AsWritten) == []
    ensures var r := Submit(GoodForm(Missing, Missing, GoodAnswers()), AsWritten);
      && r.Stored? && r.response.age == None && r.response.income == None
      && AgeGroup(r.response.age) == AgeGroups[|AgeGroups| - 1]
      && IncomeGroup(r.response.income) == IncomeGroups[|IncomeGroups| - 1]
  {
    GoodAnswersFacts();
    CastOfThree();
    forall k | k in GoodAnswers() ensures AnswerAccepted(k, GoodAnswers()[k], AsWritten) {
      assert k in QuestionIds;
    }
    GoodFormPasses(Missing, Missing, GoodAnswers(), AsWritten);
  }

  /** Under the intended rules that form is rejected with both messages. */
  lemma MissingAgeRejected()
    ensures var r := Submit(GoodForm(Missing, Missing, GoodAnswers()), Intended);
      r.Rejected? && BadAge in r.errors && BadIncome in r.errors
  {
    var f := GoodForm(Missing, Missing, GoodAnswers());
    assert FieldErrors(f, Intended)[0] == BadAge;
  }

  /** The keys q1..q9 and "q1\n". */
  const NewlineKeys: seq<string> := ["q1", "q2", "q3", "q4", "q5", "q6", "q7", "q8", "q9", "q1\n"]

  /** Answers "3" under q1..q9 and under "q1\n": ten keys, all of which the
      pattern as written matches, and no answer to q10. */
  function NewlineAnswers(): map<string, Value>
  {
    map k | k in NewlineKeys :: Text("3")
  }

  /** The ten keys of NewlineAnswers are distinct, and none is q10. */
  lemma NewlineKeysFacts()
    ensures |NewlineAnswers()| == 10
    ensures "q10" !in NewlineAnswers()
  {
    forall i, j | 0 <= i < j < |NewlineKeys| ensures NewlineKeys[i] != NewlineKeys[j] {
      if j == 9 {
        assert |NewlineKeys[i]| == 2;
      } else {
        assert NewlineKeys[i][1] != NewlineKeys[j][1];
      }
    }
    DistinctCount(NewlineKeys);
    assert NewlineAnswers().Keys == set k | k in NewlineKeys;
    forall i | 0 <= i < |NewlineKeys| ensures NewlineKeys[i] != "q10" {
      if i == 9 {
        assert NewlineKeys[i][2] != "q10"[2];
      } else {
        assert |NewlineKeys[i]| == 2;
      }
    }
  }

  /** As written, the pattern matches every key of NewlineAnswers. */
  lemma NewlineKeysMatch(k: string)
    requires k in NewlineKeys
    ensures KeyAccepted(k, AsWritten)
  {
    var i :| 0 <= i < |NewlineKeys| && NewlineKeys[i] == k;
    if i == 9 {
      assert k[..2] == "q1" == QuestionIds[0];
    } else {
      assert k == QuestionIds[i];
    }
  }

  /** As written, answers without q10 are accepted when a tenth key ends in
      a line feed; the insert then binds `null` for q10. */
  lemma NewlineKeyAccepted()
    ensures "q10" !in NewlineAnswers()
    ensures Errors(GoodForm(Int(40), Int(500), NewlineAnswers()), AsWritten) == []
    ensures var r := Submit(GoodForm(Int(40), Int(500), NewlineAnswers()), AsWritten);
      r.Stored? && r.response.answers[9] == None
  {
    var m := NewlineAnswers();
    NewlineKeysFacts();
    CastOfThree();
    forall k | k in m ensures AnswerAccepted(k, m[k], AsWritten) {
      NewlineKeysMatch(k);
    }
    GoodFormPasses(Int(40), Int(500), m, AsWritten);
  }

  /** Good answers, except that q1 is posted as an array of one entry. */
  function NestedAnswers(): map<string, Value>
  {
    GoodAnswers()["q1" := Nested(1)]
  }

  /** As written, a posted array of one entry passes as an answer and is
      stored as the answer to q1; the intended rules refuse that form. */
  lemma NestedAnswerAccepted()
    ensures AnswerAccepted("q1", Nested(1), AsWritten)
    ensures !AnswerAccepted("q1", Nested(1), Intended)
    ensures var r := Submit(GoodForm(Int(40), Int(500), NestedAnswers()), AsWritten);
      r.Stored? && r.response.answers[0] == Some(Nested(1))
    ensures Submit(GoodForm(Int(40), Int(500), NestedAnswers()), Intended).Rejected?
  {
    var m := NestedAnswers();
    GoodAnswersFacts();
    CastOfThree();
    assert "q1" in GoodAnswers() by {
      assert QuestionIds[0] in set q | q in QuestionIds;
    }
    assert m.Keys == GoodAnswers().Keys;
    forall k | k in m ensures AnswerAccepted(k, m[k], AsWritten) {
      assert k in QuestionIds;
    }
    GoodFormPasses(Int(40), Int(500), m, AsWritten);
    var f := GoodForm(Int(40), Int(500), m);
    assert !AnswerAccepted("q1", Answers(f)["q1"], Intended);
    assert BadAnswer in Errors(f, Intended) by {
      ErrorsMeaning(f, Intended);
    }
  }

  /** The intended rules accept a subset of what the rules as written accept. */
  lemma IntendedStricter(f: Form)
    ensures Errors(f, Intended) == [] ==> Errors(f, AsWritten) == []
  {
  }
}
