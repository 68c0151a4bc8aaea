/** Checking a ballot against the election it answers, and the draft it is built from, as
openvtc-core/src/elections.rs does both. */
module Ballots {
  import opened Common

  /** A question and its option keys. */
  datatype Question =
    | Choice(key: string, optional: bool, options: seq<string>, minSelections: nat, maxSelections: nat)
    | Ranking(key: string, optional: bool, options: seq<string>, partial: bool)
    | Score(key: string, optional: bool, options: seq<string>, min: int, max: int)
    | Text(key: string, optional: bool, maxLength: nat)

  datatype Manifest = Manifest(electionId: string, questions: seq<Question>)

  /** One answer as it was parsed. `abstain` is `Some(true)` for the JSON value `true` and
      `Some(false)` for any other value. */
  datatype Answer = Answer(
    question: string,
    choice: Option<seq<string>>,
    ranking: Option<seq<string>>,
    scores: map<string, int>,
    text: Option<string>,
    abstain: Option<bool>)

  datatype Ballot = Ballot(electionId: string, manifestDigest: string, answers: seq<Answer>)

  /** What parsing the ballot's JSON came to. */
  datatype Wire = Malformed(why: string) | Read(ballot: Ballot)

  datatype BallotError =
    | ManifestMismatch
    | Schema(why: string)
    | NoQuestion(key: string)
    | AnsweredTwice(key: string)
    | OneAnswer(key: string)
    | NotOptional(key: string)
    | WrongKind(key: string)
    | SelectionCount(key: string, min: nat, max: nat, chosen: nat)
    | UnknownOption(key: string)
    | RankEvery(key: string)
    | RankSome(key: string)
    | ScoreEvery(key: string)
    | ScoreBounds(key: string, lo: int, hi: int)
    | TextTooLong(key: string, max: nat)
    | Unanswered(key: string)

  // ---------------------------------------------------------------------------------------------
  // The check, as written
  // ---------------------------------------------------------------------------------------------

  function Elements(s: seq<string>): set<string> { set x | x in s }

  function Options(q: Question): set<string> {
    if q.Text? then {} else Elements(q.options)
  }

  function Members(a: Answer): nat {
    (if a.choice.Some? then 1 else 0) + (if a.ranking.Some? then 1 else 0)
    + (if a.scores != map[] then 1 else 0) + (if a.text.Some? then 1 else 0)
    + (if a.abstain.Some? then 1 else 0)
  }

  function Find(qs: seq<Question>, key: string): Option<Question> {
    if qs == [] then None else if qs[0].key == key then Some(qs[0]) else Find(qs[1..], key)
  }

  /** The rule an answer with exactly one member breaks for its question. */
  function KindError(q: Question, a: Answer): Option<BallotError> {
    if a.abstain.Some? then
      if a.abstain != Some(true) || !q.optional then Some(NotOptional(a.question)) else None
    else match q
      case Choice(_, _, options, min, max) =>
        if a.choice.None? then Some(WrongKind(a.question))
        else if |a.choice.value| < min || |a.choice.value| > max then
          Some(SelectionCount(a.question, min, max, |a.choice.value|))
        else if |Elements(a.choice.value)| != |a.choice.value| || !(Elements(a.choice.value) <= Options(q)) then
          Some(UnknownOption(a.question))
        else None
      case Ranking(_, _, options, partial) =>
        if a.ranking.None? then Some(WrongKind(a.question))
        else if |Elements(a.ranking.value)| != |a.ranking.value| || !(Elements(a.ranking.value) <= Options(q)) then
          Some(UnknownOption(a.question))
        else if partial && a.ranking.value == [] then Some(RankSome(a.question))
        else if !partial && |a.ranking.value| != |Options(q)| then Some(RankEvery(a.question))
        else None
      case Score(_, _, options, min, max) =>
        if a.scores == map[] then Some(WrongKind(a.question))
        else if a.scores.Keys != Options(q) then Some(ScoreEvery(a.question))
        else if exists k :: k in a.scores && (a.scores[k] < min || a.scores[k] > max) then
          Some(ScoreBounds(a.question, min, max))
        else None
      case Text(_, _, maxLength) =>
        if a.text.None? then Some(WrongKind(a.question))
        else if |a.text.value| > maxLength then Some(TextTooLong(a.question, maxLength))
        else None
  }

  function AnswerError(qs: seq<Question>, answered: set<string>, a: Answer): Option<BallotError> {
    var q := Find(qs, a.question);
    if q.None? then Some(NoQuestion(a.question))
    else if a.question in answered then Some(AnsweredTwice(a.question))
    else if Members(a) != 1 then Some(OneAnswer(a.question))
    else KindError(q.value, a)
  }

  function FirstUnanswered(qs: seq<Question>, answered: set<string>): Option<BallotError> {
    if qs == [] then None
    else if qs[0].key !in answered then Some(Unanswered(qs[0].key)) else FirstUnanswered(qs[1..], answered)
  }

  function FirstError(qs: seq<Question>, answered: set<string>, answers: seq<Answer>): Option<BallotError>
    decreases |answers|
  {
    if answers == [] then FirstUnanswered(qs, answered)
    else
      var e := AnswerError(qs, answered, answers[0]);
      if e.Some? then e else FirstError(qs, answered + {answers[0].question}, answers[1..])
  }

  function Refusal(m: Manifest, digest: string, wire: Wire): Option<BallotError> {
    if wire.Malformed? then Some(Schema(wire.why))
    else if wire.ballot.electionId != m.electionId || wire.ballot.manifestDigest != digest then Some(ManifestMismatch)
    else FirstError(m.questions, {}, wire.ballot.answers)
  }

  /** `check_ballot`: one pass growing `answered`, returning at the first broken rule. */
  method CheckBallot(m: Manifest, digest: string, wire: Wire) returns (refusal: Option<BallotError>)
    ensures refusal == Refusal(m, digest, wire)
  {
    if wire.Malformed? {
      return Some(Schema(wire.why));
    }
    var b := wire.ballot;
    if b.electionId != m.electionId || b.manifestDigest != digest {
      return Some(ManifestMismatch);
    }
    var answered: set<string> := {};
    for i := 0 to |b.answers|
      invariant FirstError(m.questions, answered, b.answers[i..]) == Refusal(m, digest, wire)
    {
      var a := b.answers[i];
      assert b.answers[i..][0] == a && b.answers[i..][1..] == b.answers[i + 1..];
      var found := Find(m.questions, a.question);
      if found.None? {
        return Some(NoQuestion(a.question));
      }
      if a.question in answered {
        return Some(AnsweredTwice(a.question));
      }
      answered := answered + {a.question};
      if Members(a) != 1 {
        return Some(OneAnswer(a.question));
      }
      var broken := KindError(found.value, a);
      if broken.Some? {
        return broken;
      }
    }
    refusal := FirstUnanswered(m.questions, answered);
  }

  // ---------------------------------------------------------------------------------------------
  // What a ballot should be
  // ---------------------------------------------------------------------------------------------

  predicate NoRepeats(s: seq<string>) { forall i, j :: 0 <= i < j < |s| ==> s[i] != s[j] }

  predicate DistinctKeys(qs: seq<Question>) {
    forall i, j :: 0 <= i < j < |qs| ==> qs[i].key != qs[j].key
  }

  function Blank(key: string): Answer { Answer(key, None, None, map[], None, None) }

  /** The answer carries one thing, it is what the question asks for, and it keeps the question's
      bounds. */
  ghost predicate Satisfies(q: Question, a: Answer) {
    (q.optional && a == Blank(q.key).(abstain := Some(true)))
    || match q
       case Choice(key, _, options, min, max) =>
         && a.choice.Some? && a == Blank(key).(choice := a.choice)
         && min <= |a.choice.value| <= max
         && NoRepeats(a.choice.value) && (forall k :: k in a.choice.value ==> k in options)
       case Ranking(key, _, options, partial) =>
         && a.ranking.Some? && a == Blank(key).(ranking := a.ranking)
         && NoRepeats(a.ranking.value) && (forall k :: k in a.ranking.value ==> k in options)
         && (if partial then a.ranking.value != [] else forall k :: k in options ==> k in a.ranking.value)
       case Score(key, _, options, min, max) =>
         && a.scores != map[] && a == Blank(key).(scores := a.scores)
         && (forall k :: k in options <==> k in a.scores)
         && (forall k :: k in a.scores ==> min <= a.scores[k] <= max)
       case Text(key, _, maxLength) =>
         a.text.Some? && a == Blank(key).(text := a.text) && |a.text.value| <= maxLength
  }

  /** The ballot is for this election in this version, and its answers and the questions correspond
      one to one, each answer satisfying its question. */
  ghost predicate Valid(m: Manifest, digest: string, b: Ballot) {
    b.electionId == m.electionId && b.manifestDigest == digest && OneToOne(m.questions, b.answers)
  }

  ghost predicate Answers(qs: seq<Question>, a: Answer) { exists q :: q in qs && Satisfies(q, a) }

  ghost predicate OneToOne(qs: seq<Question>, answers: seq<Answer>) {
    && (forall i, j :: 0 <= i < j < |answers| ==> answers[i].question != answers[j].question)
    && (forall i :: 0 <= i < |answers| ==> Answers(qs, answers[i]))
    && (forall q :: q in qs ==> exists i :: 0 <= i < |answers| && answers[i].question == q.key)
  }

  /** Counting: a list has as many distinct elements as places exactly when nothing repeats. */
  lemma {:induction false} ElementsCount(s: seq<string>)
    ensures |Elements(s)| <= |s|
    ensures |Elements(s)| == |s| <==> NoRepeats(s)
  {
    if s != [] {
      ElementsCount(s[1..]);
      var rest := Elements(s[1..]);
      assert Elements(s) == rest + {s[0]};
      if s[0] in rest {
        var j :| 0 <= j < |s[1..]| && s[1..][j] == s[0];
        assert s[j + 1] == s[0];
        assert Elements(s) == rest;
      } else {
        forall i, j | 0 <= i < j < |s| && NoRepeats(s[1..]) ensures s[i] != s[j] {
          assert s[j] == s[1..][j - 1] && s[j] in rest;
          if i > 0 { assert s[i] == s[1..][i - 1]; }
        }
        if NoRepeats(s) {
          forall i, j | 0 <= i < j < |s[1..]| ensures s[1..][i] != s[1..][j] {
            assert s[i + 1] != s[j + 1];
          }
        }
      }
    }
  }

  lemma {:induction false} SubsetOfSameSize(a: set<string>, b: set<string>)
    requires a <= b && |a| == |b|
    ensures a == b
  {
    if x :| x in b && x !in a {
      assert a <= b - {x};
      SubsetSize(a, b - {x});
    }
  }

  lemma {:induction false} SubsetSize(a: set<string>, b: set<string>)
    requires a <= b
    ensures |a| <= |b|
    decreases a
  {
    if x :| x in a {
      SubsetSize(a - {x}, b - {x});
    }
  }

  lemma {:induction false} FindKey(qs: seq<Question>, key: string)
    ensures var f := Find(qs, key); f.Some? ==> f.value in qs && f.value.key == key
    ensures Find(qs, key).None? <==> forall q :: q in qs ==> q.key != key
  {
    if qs != [] { FindKey(qs[1..], key); }
  }

  lemma {:induction false} FindUnique(qs: seq<Question>, q: Question)
    requires DistinctKeys(qs) && q in qs
    ensures Find(qs, q.key) == Some(q)
  {
    if qs[0] != q {
      var i :| 0 <= i < |qs| && qs[i] == q;
      assert qs[0].key != qs[i].key;
      FindUnique(qs[1..], q);
    }
  }

  /** Selections are distinct and on offer: as the check counts it and as it is meant. */
  lemma ChosenOnOffer(chosen: seq<string>, options: seq<string>)
    ensures |Elements(chosen)| == |chosen| && Elements(chosen) <= Elements(options)
       <==> NoRepeats(chosen) && forall k :: k in chosen ==> k in options
  {
    ElementsCount(chosen);
    if forall k :: k in chosen ==> k in options { assert Elements(chosen) <= Elements(options); }
    if Elements(chosen) <= Elements(options) {
      forall k | k in chosen ensures k in options { assert k in Elements(chosen); }
    }
  }

  /** Distinct choices from the options are as many as the options exactly when they are all of them. */
  lemma AllRanked(ranked: seq<string>, options: seq<string>)
    requires NoRepeats(ranked) && forall k :: k in ranked ==> k in options
    ensures |ranked| == |Elements(options)| <==> forall k :: k in options ==> k in ranked
  {
    ElementsCount(ranked);
    var r, o := Elements(ranked), Elements(options);
    assert r <= o;
    if |r| == |o| {
      SubsetOfSameSize(r, o);
      forall k | k in options ensures k in ranked { assert k in o; }
    }
    if forall k :: k in options ==> k in ranked { assert r == o; }
  }

  /** The checks on one answer hold exactly when it satisfies the question. */
  lemma KindErrorIffUnsatisfied(q: Question, a: Answer)
    requires a.question == q.key
    ensures Members(a) == 1 && KindError(q, a).None? <==> Satisfies(q, a)
  {
    if a.abstain.Some? {
      assert a.abstain == Some(true) <==> a.abstain.value;
      assert Members(a) == 1 ==> a == Blank(q.key).(abstain := a.abstain);
    } else {
      match q
      case Choice(_, _, options, _, _) =>
        if a.choice.Some? {
          ChosenOnOffer(a.choice.value, options);
          assert Members(a) == 1 <==> a == Blank(q.key).(choice := a.choice);
        }
      case Ranking(_, _, options, _) =>
        if a.ranking.Some? {
          ChosenOnOffer(a.ranking.value, options);
          if NoRepeats(a.ranking.value) && forall k :: k in a.ranking.value ==> k in options {
            AllRanked(a.ranking.value, options);
          }
          assert Members(a) == 1 <==> a == Blank(q.key).(ranking := a.ranking);
        }
      case Score(_, _, options, _, _) =>
        assert a.scores.Keys == Elements(options) <==> forall k :: k in options <==> k in a.scores;
        if a.scores != map[] { assert Members(a) == 1 <==> a == Blank(q.key).(scores := a.scores); }
      case Text(_, _, _) =>
        if a.text.Some? { assert Members(a) == 1 <==> a == Blank(q.key).(text := a.text); }
    }
  }

  lemma {:induction false} FirstUnansweredNone(qs: seq<Question>, answered: set<string>)
    ensures FirstUnanswered(qs, answered).None? <==> forall q :: q in qs ==> q.key in answered
  {
    if qs != [] { FirstUnansweredNone(qs[1..], answered); }
  }

  ghost predicate GoodAnswers(qs: seq<Question>, answered: set<string>, answers: seq<Answer>) {
    && (forall i, j :: 0 <= i < j < |answers| ==> answers[i].question != answers[j].question)
    && (forall i :: 0 <= i < |answers| ==>
          answers[i].question !in answered && Answers(qs, answers[i]))
    && (forall q :: q in qs ==>
          q.key in answered || exists i :: 0 <= i < |answers| && answers[i].question == q.key)
  }

  lemma AnswerErrorNone(qs: seq<Question>, answered: set<string>, a: Answer)
    requires DistinctKeys(qs)
    ensures AnswerError(qs, answered, a).None?
       <==> a.question !in answered && Answers(qs, a)
  {
    FindKey(qs, a.question);
    var f := Find(qs, a.question);
    if f.Some? { KindErrorIffUnsatisfied(f.value, a); }
    if q :| q in qs && Satisfies(q, a) {
      FindUnique(qs, q);
    }
  }

  lemma {:induction false} FirstErrorNone(qs: seq<Question>, answered: set<string>, answers: seq<Answer>)
    requires DistinctKeys(qs)
    ensures FirstError(qs, answered, answers).None? <==> GoodAnswers(qs, answered, answers)
    decreases |answers|
  {
    if answers == [] {
      FirstUnansweredNone(qs, answered);
    } else {
      var a, rest := answers[0], answers[1..];
      AnswerErrorNone(qs, answered, a);
      FirstErrorNone(qs, answered + {a.question}, rest);
      GoodAnswersSplit(qs, answered, answers);
    }
  }

  lemma GoodAnswersSplit(qs: seq<Question>, answered: set<string>, answers: seq<Answer>)
    requires answers != []
    ensures GoodAnswers(qs, answered, answers) <==>
      && answers[0].question !in answered && Answers(qs, answers[0])
      && GoodAnswers(qs, answered + {answers[0].question}, answers[1..])
  {
    var a, rest := answers[0], answers[1..];
    assert forall i :: 0 <= i < |rest| ==> rest[i] == answers[i + 1];
    assert forall i :: 0 < i < |answers| ==> answers[i] == rest[i - 1];
    var seen := answered + {a.question};
    if GoodAnswers(qs, answered, answers) {
      forall q | q in qs
        ensures q.key in seen || exists i :: 0 <= i < |rest| && rest[i].question == q.key
      {
        if q.key !in seen {
          var i :| 0 <= i < |answers| && answers[i].question == q.key;
          assert rest[i - 1].question == q.key;
        }
      }
    }
    if answers[0].question !in answered && Answers(qs, a) && GoodAnswers(qs, seen, rest) {
      forall q | q in qs
        ensures q.key in answered || exists i :: 0 <= i < |answers| && answers[i].question == q.key
      {
        if q.key !in answered && q.key != a.question {
          var i :| 0 <= i < |rest| && rest[i].question == q.key;
          assert answers[i + 1].question == q.key;
        }
      }
    }
  }

  lemma NoErrorIffOneToOne(qs: seq<Question>, answers: seq<Answer>)
    requires DistinctKeys(qs)
    ensures FirstError(qs, {}, answers).None? <==> OneToOne(qs, answers)
  {
    FirstErrorNone(qs, {}, answers);
    GoodFromNothing(qs, answers);
  }

  lemma GoodFromNothing(qs: seq<Question>, answers: seq<Answer>)
    ensures GoodAnswers(qs, {}, answers) <==> OneToOne(qs, answers)
  {
  }

  /** The check accepts exactly the valid ballots. */
  lemma AcceptedIffValid(m: Manifest, digest: string, b: Ballot)
    requires DistinctKeys(m.questions)
    ensures Refusal(m, digest, Read(b)).None? <==> Valid(m, digest, b)
  {
    NoErrorIffOneToOne(m.questions, b.answers);
  }

  lemma AcceptedAnswer(m: Manifest, digest: string, b: Ballot, q: Question, i: nat)
    requires DistinctKeys(m.questions) && Refusal(m, digest, Read(b)).None?
    requires q in m.questions && i < |b.answers| && b.answers[i].question == q.key
    ensures Satisfies(q, b.answers[i])
  {
    AcceptedIffValid(m, digest, b);
    KeyedAnswer(m.questions, q, b.answers[i]);
  }

  lemma SatisfiesKey(q: Question, a: Answer)
    requires Satisfies(q, a)
    ensures a.question == q.key
  {
  }

  lemma KeyedAnswer(qs: seq<Question>, q: Question, a: Answer)
    requires DistinctKeys(qs) && q in qs && a.question == q.key
    requires Answers(qs, a)
    ensures Satisfies(q, a)
  {
    var p :| p in qs && Satisfies(p, a);
    SatisfiesKey(p, a);
    FindUnique(qs, p);
    FindUnique(qs, q);
  }

  /** An accepted ranking of a question that wants every option is a permutation of the options. */
  lemma AcceptedRankingIsPermutation(m: Manifest, digest: string, b: Ballot, q: Question, i: nat)
    requires DistinctKeys(m.questions) && Refusal(m, digest, Read(b)).None?
    requires q in m.questions && q.Ranking? && !q.partial && NoRepeats(q.options)
    requires i < |b.answers| && b.answers[i].question == q.key && b.answers[i].abstain.None?
    ensures b.answers[i].ranking.Some? && multiset(b.answers[i].ranking.value) == multiset(q.options)
  {
    var a := b.answers[i];
    AcceptedAnswer(m, digest, b, q, i);
    var ranked := a.ranking.value;
    NoRepeatsCounts(ranked);
    NoRepeatsCounts(q.options);
    assert Elements(ranked) == Elements(q.options);
  }

  lemma {:induction false} NoRepeatsCounts(s: seq<string>)
    requires NoRepeats(s)
    ensures multiset(s) == multiset(Elements(s))
  {
    if s != [] {
      assert s == [s[0]] + s[1..];
      forall i, j | 0 <= i < j < |s[1..]| ensures s[1..][i] != s[1..][j] { assert s[i + 1] != s[j + 1]; }
      NoRepeatsCounts(s[1..]);
      assert s[0] !in s[1..] by {
        forall j | 0 <= j < |s[1..]| ensures s[1..][j] != s[0] { assert s[1..][j] == s[j + 1]; }
      }
      assert Elements(s) == Elements(s[1..]) + {s[0]};
    }
  }

  // ---------------------------------------------------------------------------------------------
  // Every refusal is true of the ballot
  // ---------------------------------------------------------------------------------------------

  /** What each refusal says, about the ballot rather than about the check. */
  ghost predicate Broken(qs: seq<Question>, answers: seq<Answer>, e: BallotError) {
    match e
    case NoQuestion(k) => (exists a :: a in answers && a.question == k) && forall q :: q in qs ==> q.key != k
    case AnsweredTwice(k) =>
      exists i, j :: 0 <= i < j < |answers| && answers[i].question == k && answers[j].question == k
    case Unanswered(k) => (exists q :: q in qs && q.key == k) && forall a :: a in answers ==> a.question != k
    case ManifestMismatch => false
    case Schema(_) => false
    case _ => SomeMisanswered(qs, answers, e)
  }

  ghost predicate SomeMisanswered(qs: seq<Question>, answers: seq<Answer>, e: BallotError) {
    exists a, q :: a in answers && q in qs && Misanswered(q, a, e)
  }

  ghost predicate Misanswered(q: Question, a: Answer, e: BallotError) {
    && q.key == a.question && !Satisfies(q, a)
    && match e
       case OneAnswer(k) => k == q.key && Members(a) != 1
       case NotOptional(k) => k == q.key && a.abstain.Some? && (!q.optional || !a.abstain.value)
       case WrongKind(k) => k == q.key && (q.Choice? ==> a.choice.None?) && (q.Ranking? ==> a.ranking.None?)
                        && (q.Score? ==> a.scores == map[]) && (q.Text? ==> a.text.None?)
       case SelectionCount(k, min, max, n) => k == q.key && q.Choice? && a.choice.Some?
                        && n == |a.choice.value| && min == q.minSelections && max == q.maxSelections
                        && !(min <= n <= max)
       case UnknownOption(k) => k == q.key && ((q.Choice? && a.choice.Some? && Astray(a.choice.value, q.options))
                                            || (q.Ranking? && a.ranking.Some? && Astray(a.ranking.value, q.options)))
       case RankEvery(k) => k == q.key && q.Ranking? && a.ranking.Some?
                        && exists o :: o in q.options && o !in a.ranking.value
       case RankSome(k) => k == q.key && q.Ranking? && a.ranking == Some([])
       case ScoreEvery(k) => k == q.key && q.Score? && a.scores.Keys != Elements(q.options)
       case ScoreBounds(k, lo, hi) => k == q.key && q.Score? && lo == q.min && hi == q.max
                        && exists o :: o in a.scores && !(lo <= a.scores[o] <= hi)
       case TextTooLong(k, max) => k == q.key && q.Text? && a.text.Some? && max == q.maxLength && |a.text.value| > max
       case _ => false
  }

  /** Something not on offer, or something twice. */
  ghost predicate Astray(chosen: seq<string>, options: seq<string>) {
    !NoRepeats(chosen) || exists k :: k in chosen && k !in options
  }

  lemma AnswerErrorTrue(qs: seq<Question>, answered: set<string>, a: Answer)
    requires AnswerError(qs, answered, a).Some? && Find(qs, a.question).Some? && a.question !in answered
    ensures Find(qs, a.question).value in qs
    ensures Misanswered(Find(qs, a.question).value, a, AnswerError(qs, answered, a).value)
  {
    FindKey(qs, a.question);
    var q := Find(qs, a.question).value;
    KindErrorIffUnsatisfied(q, a);
    if a.abstain.Some? && a.abstain.value { assert a.abstain == Some(true); }
    if a.choice.Some? { ElementsCount(a.choice.value); }
    if a.ranking.Some? {
      ElementsCount(a.ranking.value);
      if q.Ranking? && NoRepeats(a.ranking.value) && Elements(a.ranking.value) <= Elements(q.options) {
        ChosenOnOffer(a.ranking.value, q.options);
        AllRanked(a.ranking.value, q.options);
      }
    }
  }

  lemma {:induction false} FirstErrorTrue(qs: seq<Question>, done: seq<Answer>, answers: seq<Answer>)
    requires FirstError(qs, set a | a in done :: a.question, answers).Some?
    ensures Broken(qs, done + answers, FirstError(qs, set a | a in done :: a.question, answers).value)
    decreases |answers|
  {
    var answered := set a | a in done :: a.question;
    var e := FirstError(qs, answered, answers).value;
    var all := done + answers;
    if answers == [] {
      FirstUnansweredTrue(qs, answered);
      assert all == done;
    } else {
      var a := answers[0];
      if AnswerError(qs, answered, a).Some? {
        AnswerErrorBroken(qs, done, answers);
      } else {
        AnsweredMore(done, a);
        FirstErrorTrue(qs, done + [a], answers[1..]);
        assert done + [a] + answers[1..] == all;
      }
    }
  }

  lemma AnswerErrorBroken(qs: seq<Question>, done: seq<Answer>, answers: seq<Answer>)
    requires answers != [] && AnswerError(qs, set a | a in done :: a.question, answers[0]).Some?
    ensures Broken(qs, done + answers, AnswerError(qs, set a | a in done :: a.question, answers[0]).value)
  {
    var answered := set a | a in done :: a.question;
    var all, a := done + answers, answers[0];
    assert all[|done|] == a;
    FindKey(qs, a.question);
    if Find(qs, a.question).Some? && a.question in answered {
      var i :| 0 <= i < |done| && done[i].question == a.question;
      assert all[i] == done[i];
    } else if Find(qs, a.question).Some? {
      AnswerErrorTrue(qs, answered, a);
      assert a in all;
    }
  }

  lemma AnsweredMore(done: seq<Answer>, a: Answer)
    ensures (set x | x in done + [a] :: x.question) == (set x | x in done :: x.question) + {a.question}
  {
    var answered := set x | x in done :: x.question;
    forall k ensures k in (set x | x in done + [a] :: x.question) <==> k in answered + {a.question} {
      if k in answered { var x :| x in done && x.question == k; assert x in done + [a]; }
      assert a in done + [a];
    }
  }

  lemma {:induction false} FirstUnansweredTrue(qs: seq<Question>, answered: set<string>)
    requires FirstUnanswered(qs, answered).Some?
    ensures var e := FirstUnanswered(qs, answered).value;
      e.Unanswered? && e.key !in answered && exists q :: q in qs && q.key == e.key
  {
    if qs[0].key in answered {
      FirstUnansweredTrue(qs[1..], answered);
      var q :| q in qs[1..] && q.key == FirstUnanswered(qs, answered).value.key;
      assert q in qs;
    } else {
      assert qs[0] in qs;
    }
  }

  /** A refusal names a rule the ballot really breaks, for any manifest. */
  lemma RefusalIsTrue(m: Manifest, digest: string, b: Ballot)
    requires Refusal(m, digest, Read(b)).Some?
    ensures var e := Refusal(m, digest, Read(b)).value;
      if b.electionId == m.electionId && b.manifestDigest == digest
      then Broken(m.questions, b.answers, e) else e == ManifestMismatch
  {
    if b.electionId == m.electionId && b.manifestDigest == digest {
      var none: seq<Answer> := [];
      assert (set a | a in none :: a.question) == {};
      FirstErrorTrue(m.questions, none, b.answers);
      assert [] + b.answers == b.answers;
    }
  }

  /** And a ballot that breaks any rule is refused. */
  lemma BrokenIsRefused(m: Manifest, digest: string, b: Ballot, e: BallotError)
    requires DistinctKeys(m.questions) && Broken(m.questions, b.answers, e)
    ensures Refusal(m, digest, Read(b)).Some?
  {
    AcceptedIffValid(m, digest, b);
    if OneToOne(m.questions, b.answers) { NothingBroken(m.questions, b.answers, e); }
  }

  lemma AnsweredWell(qs: seq<Question>, answers: seq<Answer>, a: Answer)
    requires OneToOne(qs, answers) && a in answers
    ensures Answers(qs, a) && exists q :: q in qs && q.key == a.question
  {
    var i :| 0 <= i < |answers| && answers[i] == a;
    assert Answers(qs, answers[i]);
    var q :| q in qs && Satisfies(q, a);
    SatisfiesKey(q, a);
  }

  lemma NotMisanswered(qs: seq<Question>, answers: seq<Answer>, a: Answer, q: Question, e: BallotError)
    requires DistinctKeys(qs) && OneToOne(qs, answers) && a in answers && q in qs
    ensures !Misanswered(q, a, e)
  {
    AnsweredWell(qs, answers, a);
    if q.key == a.question { KeyedAnswer(qs, q, a); }
  }

  lemma NoneMisanswered(qs: seq<Question>, answers: seq<Answer>, e: BallotError)
    requires DistinctKeys(qs) && OneToOne(qs, answers)
    ensures !SomeMisanswered(qs, answers, e)
  {
    forall a, q | a in answers && q in qs ensures !Misanswered(q, a, e) { NotMisanswered(qs, answers, a, q, e); }
  }

  /** The answers' keys and the questions' correspond one to one. */
  ghost predicate SameKeys(qs: seq<Question>, answers: seq<Answer>) {
    && (forall i, j :: 0 <= i < j < |answers| ==> answers[i].question != answers[j].question)
    && (forall a :: a in answers ==> exists q :: q in qs && q.key == a.question)
    && (forall q :: q in qs ==> exists a :: a in answers && a.question == q.key)
  }

  lemma OneToOneKeys(qs: seq<Question>, answers: seq<Answer>)
    requires OneToOne(qs, answers)
    ensures SameKeys(qs, answers)
  {
    forall a | a in answers ensures exists q :: q in qs && q.key == a.question { AnsweredWell(qs, answers, a); }
    forall q | q in qs ensures exists a :: a in answers && a.question == q.key {
      var i :| 0 <= i < |answers| && answers[i].question == q.key;
      assert answers[i] in answers;
    }
  }

  lemma KeysNotBroken(qs: seq<Question>, answers: seq<Answer>, e: BallotError)
    requires SameKeys(qs, answers) && (e.NoQuestion? || e.AnsweredTwice? || e.Unanswered?)
    ensures !Broken(qs, answers, e)
  {
  }

  lemma NothingBroken(qs: seq<Question>, answers: seq<Answer>, e: BallotError)
    requires DistinctKeys(qs) && OneToOne(qs, answers)
    ensures !Broken(qs, answers, e)
  {
    if e.NoQuestion? || e.AnsweredTwice? || e.Unanswered? {
      OneToOneKeys(qs, answers);
      KeysNotBroken(qs, answers, e);
    } else {
      NoneMisanswered(qs, answers, e);
    }
  }

  /** A ballot is unreadable, or for another election or another version of it, before it is anything
      else. */
  lemma WhichRefusal(m: Manifest, digest: string, wire: Wire)
    ensures forall why :: Refusal(m, digest, wire) == Some(Schema(why)) <==> wire == Malformed(why)
    ensures Refusal(m, digest, wire) == Some(ManifestMismatch)
       <==> wire.Read? && (wire.ballot.electionId != m.electionId || wire.ballot.manifestDigest != digest)
  {
    if wire.Read? && Refusal(m, digest, wire).Some? { RefusalIsTrue(m, digest, wire.ballot); }
  }

  /** The answer is the first one to something else that satisfies its question. */
  ghost predicate GoodAt(qs: seq<Question>, answers: seq<Answer>, i: nat)
    requires i < |answers|
  {
    Answers(qs, answers[i]) && forall j :: 0 <= j < i ==> answers[j].question != answers[i].question
  }

  function AnsweredBy(answers: seq<Answer>): set<string> { set a | a in answers :: a.question }

  /** An answer after good ones: either good too, or breaking the rule it is refused for. */
  lemma NextAnswer(qs: seq<Question>, answers: seq<Answer>, n: nat)
    requires DistinctKeys(qs) && n < |answers|
    ensures var e := AnswerError(qs, AnsweredBy(answers[..n]), answers[n]);
      && (e.None? <==> GoodAt(qs, answers, n))
      && (e.Some? ==> !e.value.Unanswered? && Broken(qs, answers[..n + 1], e.value))
    ensures AnsweredBy(answers[..n + 1]) == AnsweredBy(answers[..n]) + {answers[n].question}
    ensures answers[n..][0] == answers[n] && answers[n..][1..] == answers[n + 1..]
  {
    var answered, a := AnsweredBy(answers[..n]), answers[n];
    assert answers[..n + 1] == answers[..n] + [a];
    AnswerErrorNone(qs, answered, a);
    SeenBefore(answers, n);
    AnsweredMore(answers[..n], a);
    if AnswerError(qs, answered, a).Some? { AnswerErrorBroken(qs, answers[..n], [a]); }
  }

  /** Up to the first bad answer the check finds nothing. */
  lemma {:induction false} FirstErrorAt(qs: seq<Question>, answers: seq<Answer>, n: nat, i: nat)
    requires DistinctKeys(qs) && n <= i <= |answers| && (forall j :: n <= j < i ==> GoodAt(qs, answers, j))
    requires i < |answers| ==> !GoodAt(qs, answers, i)
    ensures FirstError(qs, AnsweredBy(answers[..n]), answers[n..])
         == if i == |answers| then FirstUnanswered(qs, AnsweredBy(answers))
            else AnswerError(qs, AnsweredBy(answers[..i]), answers[i])
    decreases i - n
  {
    if n == |answers| {
      assert answers[..n] == answers;
    } else {
      NextAnswer(qs, answers, n);
      if n < i { FirstErrorAt(qs, answers, n + 1, i); }
    }
  }

  lemma {:induction false} FirstBad(qs: seq<Question>, answers: seq<Answer>, n: nat) returns (i: nat)
    requires n <= |answers|
    ensures n <= i <= |answers| && (forall j :: n <= j < i ==> GoodAt(qs, answers, j))
    ensures i < |answers| ==> !GoodAt(qs, answers, i)
    decreases |answers| - n
  {
    i := n;
    if n < |answers| && GoodAt(qs, answers, n) { i := FirstBad(qs, answers, n + 1); }
  }

  lemma SeenBefore(answers: seq<Answer>, n: nat)
    requires n < |answers|
    ensures answers[n].question in (set a | a in answers[..n] :: a.question)
       <==> exists j :: 0 <= j < n && answers[j].question == answers[n].question
  {
    var before := answers[..n];
    if j :| 0 <= j < n && answers[j].question == answers[n].question { assert before[j] in before; }
    if a :| a in before && a.question == answers[n].question {
      var j :| 0 <= j < n && before[j] == a;
      assert answers[j] == a;
    }
  }

  predicate HasAnswer(answers: seq<Answer>, q: Question) { exists a :: a in answers && a.question == q.key }

  /** `first` is the first question nobody answered. */
  predicate FirstLeftOut(qs: seq<Question>, answers: seq<Answer>, first: nat) {
    first < |qs| && !HasAnswer(answers, qs[first]) && forall j :: 0 <= j < first ==> HasAnswer(answers, qs[j])
  }

  /** So the check reports the first broken rule, in the order of the answers, and then of the questions. */
  lemma FirstBrokenRule(m: Manifest, digest: string, b: Ballot) returns (i: nat)
    requires DistinctKeys(m.questions) && b.electionId == m.electionId && b.manifestDigest == digest
    requires Refusal(m, digest, Read(b)).Some?
    ensures i <= |b.answers| && forall j :: 0 <= j < i ==> GoodAt(m.questions, b.answers, j)
    ensures var e := Refusal(m, digest, Read(b)).value;
      if i < |b.answers| then !GoodAt(m.questions, b.answers, i) && Broken(m.questions, b.answers[..i + 1], e)
      else exists k: nat :: FirstLeftOut(m.questions, b.answers, k) && e == Unanswered(m.questions[k].key)
  {
    assert b.answers[..0] == [] && b.answers[0..] == b.answers;
    assert AnsweredBy(b.answers[..0]) == {};
    i := FirstBad(m.questions, b.answers, 0);
    FirstErrorAt(m.questions, b.answers, 0, i);
    if i < |b.answers| {
      NextAnswer(m.questions, b.answers, i);
    } else {
      var first := LeftOutIs(m.questions, AnsweredBy(b.answers));
      LeftOut(m.questions, b.answers, first);
    }
  }

  lemma LeftOut(qs: seq<Question>, answers: seq<Answer>, first: nat)
    requires first < |qs| && qs[first].key !in AnsweredBy(answers)
    requires forall j :: 0 <= j < first ==> qs[j].key in AnsweredBy(answers)
    ensures FirstLeftOut(qs, answers, first)
  {
    forall q: Question ensures q.key in AnsweredBy(answers) <==> HasAnswer(answers, q) {}
  }

  lemma {:induction false} LeftOutIs(qs: seq<Question>, answered: set<string>) returns (first: nat)
    requires FirstUnanswered(qs, answered).Some?
    ensures first < |qs| && qs[first].key !in answered && (forall j :: 0 <= j < first ==> qs[j].key in answered)
    ensures FirstUnanswered(qs, answered) == Some(Unanswered(qs[first].key))
  {
    first := 0;
    if qs[0].key in answered {
      var k := LeftOutIs(qs[1..], answered);
      first := k + 1;
      assert forall j :: 0 < j < |qs| ==> qs[j] == qs[1..][j - 1];
    }
  }

  // ---------------------------------------------------------------------------------------------
  // The draft
  // ---------------------------------------------------------------------------------------------

  /** An answer being filled in. A score is `None` until given. */
  datatype AnswerDraft =
    | ChoiceDraft(chosen: seq<string>)
    | RankingDraft(order: seq<string>)
    | ScoresDraft(given: seq<(string, Option<int>)>)
    | TextDraft(words: string)

  datatype Entry = Entry(key: string, draft: AnswerDraft, abstained: bool)

  function NewEntry(q: Question): Entry {
    Entry(q.key,
          match q
          case Choice(_, _, _, _, _) => ChoiceDraft([])
          case Ranking(_, _, _, _) => RankingDraft([])
          case Score(_, _, options, _, _) =>
            ScoresDraft(seq(|options|, i requires 0 <= i < |options| => (options[i], None)))
          case Text(_, _, _) => TextDraft(""),
          false)
  }

  function NewDraft(m: Manifest): seq<Entry> {
    seq(|m.questions|, i requires 0 <= i < |m.questions| => NewEntry(m.questions[i]))
  }

  function GivenScores(given: seq<(string, Option<int>)>): map<string, int> {
    if given == [] then map[]
    else
      var last := given[|given| - 1];
      var before := GivenScores(given[..|given| - 1]);
      if last.1.Some? then before[last.0 := last.1.value] else before
  }

  /** The answer as the check reads it back from JSON. */
  function ToAnswer(e: Entry): Answer {
    if e.abstained then Blank(e.key).(abstain := Some(true))
    else match e.draft
      case ChoiceDraft(c) => Blank(e.key).(choice := Some(c))
      case RankingDraft(r) => Blank(e.key).(ranking := Some(r))
      case ScoresDraft(s) => Blank(e.key).(scores := GivenScores(s))
      case TextDraft(t) => Blank(e.key).(text := Some(t))
  }

  function ToBallot(draft: seq<Entry>, electionId: string, digest: string): Ballot {
    Ballot(electionId, digest, seq(|draft|, i requires 0 <= i < |draft| => ToAnswer(draft[i])))
  }

  /** An edit keeps the keys and the kinds, and for scores the options: what filling in can do. */
  predicate Shaped(q: Question, e: Entry) {
    && e.key == q.key
    && match q
       case Choice(_, _, _, _, _) => e.draft.ChoiceDraft?
       case Ranking(_, _, _, _) => e.draft.RankingDraft?
       case Score(_, _, options, _, _) => e.draft.ScoresDraft? && |e.draft.given| == |options|
                                       && forall i :: 0 <= i < |options| ==> e.draft.given[i].0 == options[i]
       case Text(_, _, _) => e.draft.TextDraft?
  }

  predicate DraftFor(m: Manifest, draft: seq<Entry>) {
    |draft| == |m.questions| && forall i :: 0 <= i < |draft| ==> Shaped(m.questions[i], draft[i])
  }

  lemma NewDraftFits(m: Manifest)
    ensures DraftFor(m, NewDraft(m))
  {
    forall i | 0 <= i < |m.questions| ensures Shaped(m.questions[i], NewDraft(m)[i]) {}
  }

  /** Nothing is filled in yet. */
  lemma NewDraftEmpty(m: Manifest, i: nat)
    requires i < |m.questions|
    ensures var e := NewDraft(m)[i];
      && !e.abstained
      && match e.draft
         case ChoiceDraft(chosen) => chosen == []
         case RankingDraft(order) => order == []
         case ScoresDraft(given) => forall j :: 0 <= j < |given| ==> given[j].1.None?
         case TextDraft(words) => words == ""
  {
  }

  lemma {:induction false} GivenScoresKeys(given: seq<(string, Option<int>)>)
    ensures forall k :: k in GivenScores(given) <==> exists i :: 0 <= i < |given| && given[i].0 == k && given[i].1.Some?
  {
    if given != [] {
      var n := |given| - 1;
      GivenScoresKeys(given[..n]);
      forall k
        ensures k in GivenScores(given) <==> exists i :: 0 <= i < |given| && given[i].0 == k && given[i].1.Some?
      {
        if i :| 0 <= i < |given| && given[i].0 == k && given[i].1.Some? {
          if i < n { assert given[..n][i] == given[i]; }
        }
        if k in GivenScores(given[..n]) {
          var i :| 0 <= i < n && given[..n][i].0 == k && given[..n][i].1.Some?;
          assert given[i] == given[..n][i];
        }
      }
    }
  }

  /** What can still be wrong with an entry: never its kind. */
  predicate StillPossible(e: BallotError) {
    !(e.ManifestMismatch? || e.Schema? || e.NoQuestion? || e.AnsweredTwice? || e.WrongKind? || e.Unanswered?)
  }

  lemma EntryRefusal(qs: seq<Question>, answered: set<string>, q: Question, e: Entry)
    requires DistinctKeys(qs) && q in qs && Shaped(q, e) && q.key !in answered
    ensures ToAnswer(e).question == q.key
    ensures var refusal := AnswerError(qs, answered, ToAnswer(e));
            refusal.Some? ==> StillPossible(refusal.value)
  {
    FindUnique(qs, q);
  }

  lemma AllAnswered(qs: seq<Question>, answered: set<string>)
    requires forall k :: k in answered <==> exists j :: 0 <= j < |qs| && qs[j].key == k
    ensures FirstError(qs, answered, []).None?
  {
    FirstUnansweredNone(qs, answered);
    forall q | q in qs ensures q.key in answered {
      var j :| 0 <= j < |qs| && qs[j] == q;
    }
  }

  lemma {:induction false} DraftFrom(m: Manifest, draft: seq<Entry>, i: nat, answered: set<string>)
    requires DistinctKeys(m.questions) && DraftFor(m, draft) && i <= |draft|
    requires forall k :: k in answered <==> exists j :: 0 <= j < i && m.questions[j].key == k
    ensures var e := FirstError(m.questions, answered, ToBallot(draft, "", "").answers[i..]);
            e.Some? ==> StillPossible(e.value)
    decreases |draft| - i
  {
    var answers := ToBallot(draft, "", "").answers;
    if i == |draft| {
      AllAnswered(m.questions, answered);
    } else {
      var q, a := m.questions[i], ToAnswer(draft[i]);
      assert answers[i..][0] == a && answers[i..][1..] == answers[i + 1..];
      EntryRefusal(m.questions, answered, q, draft[i]);
      DraftFrom(m, draft, i + 1, answered + {a.question});
    }
  }

  /** A draft made for the manifest and filled in, sent for the same election and digest, is never
      refused for its shape: only for what the member put in it. */
  lemma DraftNeverMisshapen(m: Manifest, draft: seq<Entry>, digest: string)
    requires DistinctKeys(m.questions) && DraftFor(m, draft)
    ensures var e := Refusal(m, digest, Read(ToBallot(draft, m.electionId, digest)));
            e.Some? ==> StillPossible(e.value)
  {
    var answers := ToBallot(draft, m.electionId, digest).answers;
    assert answers == ToBallot(draft, "", "").answers[0..];
    DraftFrom(m, draft, 0, {});
  }

  predicate Unscored(e: Entry) {
    e.draft.ScoresDraft? && forall i :: 0 <= i < |e.draft.given| ==> e.draft.given[i].1.None?
  }

  predicate FullyScored(e: Entry) {
    e.draft.ScoresDraft? && forall i :: 0 <= i < |e.draft.given| ==> e.draft.given[i].1.Some?
  }

  /** A score left out is reported as `ScoreEvery` exactly when another score was given. With no
      score given at all the refusal is `OneAnswer`: an empty score map does not count as a member. */
  lemma UnscoredRefusal(q: Question, e: Entry, answered: set<string>)
    requires q.Score? && Shaped(q, e) && !e.abstained && NoRepeats(q.options) && q.key !in answered
    ensures AnswerError([q], answered, ToAnswer(e)) == Some(OneAnswer(q.key)) <==> Unscored(e)
    ensures AnswerError([q], answered, ToAnswer(e)) == Some(ScoreEvery(q.key)) <==> !Unscored(e) && !FullyScored(e)
  {
    assert Find([q], q.key) == Some(q);
    ScoresGiven(e);
    ScoresComplete(q, e);
  }

  lemma ScoresGiven(e: Entry)
    requires e.draft.ScoresDraft?
    ensures GivenScores(e.draft.given) == map[] <==> Unscored(e)
  {
    var given := e.draft.given;
    GivenScoresKeys(given);
    if Unscored(e) {
      assert GivenScores(given).Keys == {};
    } else {
      var i :| 0 <= i < |given| && given[i].1.Some?;
      assert given[i].0 in GivenScores(given);
    }
  }

  lemma ScoresComplete(q: Question, e: Entry)
    requires q.Score? && Shaped(q, e) && !e.abstained && NoRepeats(q.options)
    ensures GivenScores(e.draft.given).Keys == Options(q) <==> FullyScored(e)
  {
    var given, a := e.draft.given, ToAnswer(e);
    GivenScoresKeys(given);
    if FullyScored(e) {
      forall k ensures k in a.scores <==> k in Options(q) {
        if k in q.options { var i :| 0 <= i < |q.options| && q.options[i] == k; assert given[i].0 == k; }
      }
      assert a.scores.Keys == Options(q);
    } else {
      var i :| 0 <= i < |given| && given[i].1.None?;
      assert q.options[i] in Options(q);
      forall j | 0 <= j < |given| && given[j].0 == q.options[i] ensures given[j].1.None? {
        assert q.options[j] == q.options[i];
      }
    }
  }

  /** Each score given is the one read back. */
  lemma {:induction false} GivenScoresValues(given: seq<(string, Option<int>)>, i: nat)
    requires i < |given| && given[i].1.Some?
    requires forall j, k :: 0 <= j < k < |given| ==> given[j].0 != given[k].0
    ensures given[i].0 in GivenScores(given) && GivenScores(given)[given[i].0] == given[i].1.value
  {
    var n := |given| - 1;
    if i < n {
      assert given[..n][i] == given[i];
      GivenScoresValues(given[..n], i);
      assert given[n].0 != given[i].0;
    }
  }

  /** What the member put in is what the question asks for. */
  ghost predicate EntryFine(q: Question, e: Entry) {
    if e.abstained then q.optional
    else match e.draft
      case ChoiceDraft(chosen) => q.Choice? && q.minSelections <= |chosen| <= q.maxSelections
        && NoRepeats(chosen) && forall k :: k in chosen ==> k in q.options
      case RankingDraft(order) => q.Ranking? && NoRepeats(order) && (forall k :: k in order ==> k in q.options)
        && (if q.partial then order != [] else forall k :: k in q.options ==> k in order)
      case ScoresDraft(given) => q.Score? && given != []
        && forall i :: 0 <= i < |given| ==> given[i].1.Some? && q.min <= given[i].1.value <= q.max
      case TextDraft(words) => q.Text? && |words| <= q.maxLength
  }

  lemma EntryFineIff(q: Question, e: Entry)
    requires Shaped(q, e) && (q.Score? ==> NoRepeats(q.options))
    ensures Satisfies(q, ToAnswer(e)) <==> EntryFine(q, e)
  {
    if e.draft.ScoresDraft? && !e.abstained {
      var given := e.draft.given;
      ScoresGiven(e);
      ScoresComplete(q, e);
      assert forall j, k :: 0 <= j < k < |given| ==> given[j].0 == q.options[j] && given[k].0 == q.options[k];
      forall i | 0 <= i < |given| && given[i].1.Some?
        ensures given[i].0 in GivenScores(given) && GivenScores(given)[given[i].0] == given[i].1.value
      {
        GivenScoresValues(given, i);
      }
      GivenScoresKeys(given);
      ScoresFineIff(q, e);
    }
  }

  lemma ScoresFineIff(q: Question, e: Entry)
    requires q.Score? && Shaped(q, e) && !e.abstained
    requires var given, scores := e.draft.given, GivenScores(e.draft.given);
      && (scores == map[] <==> Unscored(e)) && (scores.Keys == Options(q) <==> FullyScored(e))
      && ReadBack(given, scores)
    ensures Satisfies(q, ToAnswer(e)) <==> EntryFine(q, e)
  {
    var given, a := e.draft.given, ToAnswer(e);
    SatisfiesScoresIff(q, a);
    if FullyScored(e) { InBoundsIff(given, a.scores, q.min, q.max); }
    assert given != [] && FullyScored(e) ==> given[0].1.Some?;
  }

  lemma SatisfiesScoresIff(q: Question, a: Answer)
    requires q.Score? && a == Blank(q.key).(scores := a.scores)
    ensures Satisfies(q, a) <==>
      a.scores != map[] && a.scores.Keys == Options(q) && forall k :: k in a.scores ==> q.min <= a.scores[k] <= q.max
  {
    assert a.scores.Keys == Options(q) <==> forall k :: k in q.options <==> k in a.scores;
  }

  /** The scores read back are those given. */
  ghost predicate ReadBack(given: seq<(string, Option<int>)>, scores: map<string, int>) {
    && (forall i :: 0 <= i < |given| && given[i].1.Some? ==>
          given[i].0 in scores && scores[given[i].0] == given[i].1.value)
    && (forall k :: k in scores <==> exists i :: 0 <= i < |given| && given[i].0 == k && given[i].1.Some?)
  }

  lemma InBoundsIff(given: seq<(string, Option<int>)>, scores: map<string, int>, lo: int, hi: int)
    requires ReadBack(given, scores) && forall i :: 0 <= i < |given| ==> given[i].1.Some?
    ensures (forall k :: k in scores ==> lo <= scores[k] <= hi)
       <==> forall i :: 0 <= i < |given| ==> lo <= given[i].1.value <= hi
  {
    if forall k :: k in scores ==> lo <= scores[k] <= hi {
      forall i | 0 <= i < |given| ensures lo <= given[i].1.value <= hi { assert given[i].0 in scores; }
    }
    if forall i :: 0 <= i < |given| ==> lo <= given[i].1.value <= hi {
      forall k | k in scores ensures lo <= scores[k] <= hi {
        var i :| 0 <= i < |given| && given[i].0 == k && given[i].1.Some?;
      }
    }
  }

  /** A draft that was filled in is accepted exactly when every entry is what its question asks for. */
  lemma DraftAcceptedIff(m: Manifest, draft: seq<Entry>, digest: string)
    requires DistinctKeys(m.questions) && DraftFor(m, draft)
    requires forall q :: q in m.questions && q.Score? ==> NoRepeats(q.options)
    ensures Refusal(m, digest, Read(ToBallot(draft, m.electionId, digest))).None?
       <==> forall i :: 0 <= i < |draft| ==> EntryFine(m.questions[i], draft[i])
  {
    var b := ToBallot(draft, m.electionId, digest);
    AcceptedIffValid(m, digest, b);
    forall i | 0 <= i < |draft|
      ensures b.answers[i].question == m.questions[i].key
      ensures Answers(m.questions, b.answers[i]) <==> EntryFine(m.questions[i], draft[i])
    {
      var q := m.questions[i];
      assert Shaped(q, draft[i]) && q in m.questions;
      EntryFineIff(q, draft[i]);
      if Answers(m.questions, b.answers[i]) { KeyedAnswer(m.questions, q, b.answers[i]); }
    }
    forall i, j | 0 <= i < j < |draft| ensures b.answers[i].question != b.answers[j].question {
      assert m.questions[i].key != m.questions[j].key;
    }
    forall q | q in m.questions ensures exists i :: 0 <= i < |b.answers| && b.answers[i].question == q.key {
      var i :| 0 <= i < |m.questions| && m.questions[i] == q;
      assert b.answers[i].question == q.key;
    }
  }
}
