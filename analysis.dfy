/** The analysis step of the report page: who may see the analyses, when
    there is enough data for them, and which analysis runs after which
    (one-way ANOVA, Tukey's HSD after a significant one-way result, and the
    two-way ANOVA for two different factors). */
module AnalysisPage {
  import opened Wrappers
  import opened Records
  import opened Grouping
  import opened OneWayAnova
  import opened TukeyHsd
  import opened TwoWayAnova

  /** The roles `in_array($_SESSION['role'], ['admin', 'editor'])` admits. */
  const AnalystRoles: seq<string> := ["admin", "editor"]

  const LoadFailedMessage: string := "分析用データの読み込みに失敗しました。"
  const SameFactorsMessage: string := "要因Aと要因Bには異なるグループを選択してください。"
  const TooFewRowsMessage: string := "二元配置分散分析には、さらに多くのデータ(最低20件以上)が必要です。"

  /** The page variables this step sets: `$error_message`, `$anova_result`,
      `$tukey_result`, `$anova2_result` and `$anova2_error_message`. */
  datatype Report = Report(
    errorMessage: Option<string>,
    anova: Option<AnovaResult>,
    tukey: Option<seq<Comparison>>,
    twoWay: Option<TwoWayTable>,
    twoWayError: Option<string>)

  /** The session role (None when it is not set) is one of the analyst roles. */
  predicate MayAnalyse(role: Option<string>)
  {
    role.Some? && role.value in AnalystRoles
  }

  /** One-way results always have distinct, non-empty groups, as Tukey's
      HSD needs. */
  lemma AnovaGroupsUsable(rows: seq<Row>, groupKey: string, valueKey: string)
    requires OneWay(rows, groupKey, valueKey).Some?
    ensures var gs := OneWay(rows, groupKey, valueKey).value.groups;
      NonEmptyGroups(gs) && DistinctNames(gs)
  {
    OneWayGroups(rows, groupKey, valueKey);
    var gs := OneWay(rows, groupKey, valueKey).value.groups;
    forall i | 0 <= i < |gs| ensures |gs[i].values| > 0 {
      assert gs[i] in gs;
    }
  }

  /** `calculate_tukey_hsd` on a one-way result, when its significance level is positive. */
  function PostHoc(rows: seq<Row>, groupKey: string, questionKey: string): Option<seq<Comparison>>
  {
    var anova := OneWay(rows, groupKey, questionKey);
    if anova.Some? && anova.value.significanceLevel > 0.0 then
      AnovaGroupsUsable(rows, groupKey, questionKey);
      Tukey(anova.value.groups, anova.value.msWithin, anova.value.dfWithin)
    else None
  }

  /** `$anova2_result` and `$anova2_error_message` from the row count and the factor keys. */
  function TwoWayStep(rows: seq<Row>, totalCount: int, questionKey: string, factorAKey: string, factorBKey: string)
    : (Option<TwoWayTable>, Option<string>)
  {
    if totalCount <= 20 then (None, Some(TooFewRowsMessage))
    else if factorAKey == factorBKey then (None, Some(SameFactorsMessage))
    else
      match TwoWay(rows, factorAKey, factorBKey, questionKey)
      case Table(t) => (Some(t), None)
      case Failed(e) => (None, Some(e.Message()))
  }

  /** The page variables after the analysis step, from the error message so
      far, the session role, the stored row count and what
      `get_all_survey_data` returns (None for `false`). */
  function Analyses(errorMessage: Option<string>, role: Option<string>, totalCount: int, surveyData: Option<seq<Row>>,
                    groupKey: string, questionKey: string, factorAKey: string, factorBKey: string): Report
  {
    if errorMessage.Some? || !MayAnalyse(role) || totalCount <= 10 then Report(errorMessage, None, None, None, None)
    else if surveyData.None? then Report(Some(LoadFailedMessage), None, None, None, None)
    else
      var rows := surveyData.value;
      var (twoWay, twoWayError) := TwoWayStep(rows, totalCount, questionKey, factorAKey, factorBKey);
      Report(None, OneWay(rows, groupKey, questionKey), PostHoc(rows, groupKey, questionKey), twoWay, twoWayError)
  }

  /** The analysis block of the page (the `in_array` role gate and the
      `$total_count > 10` and `> 20` gates around the three engines). */
  method RunAnalyses(errorMessage: Option<string>, role: Option<string>, totalCount: int, surveyData: Option<seq<Row>>,
                     groupKey: string, questionKey: string, factorAKey: string, factorBKey: string)
    returns (report: Report)
    ensures report == Analyses(errorMessage, role, totalCount, surveyData, groupKey, questionKey, factorAKey, factorBKey)
  {
    report := Report(errorMessage, None, None, None, None);
    if errorMessage.Some? || !(role.Some? && role.value in AnalystRoles) || totalCount <= 10 {
      return;
    }
    if surveyData.None? {
      report := report.(errorMessage := Some(LoadFailedMessage));
      return;
    }
    var rows := surveyData.value;

    var anova := CalculateAnova(rows, groupKey, questionKey);
    report := report.(anova := anova);
    if anova.Some? && anova.value.significanceLevel > 0.0 {
      AnovaGroupsUsable(rows, groupKey, questionKey);
      var tukey := CalculateTukeyHsd(anova.value.groups, anova.value.msWithin, anova.value.dfWithin);
      report := report.(tukey := tukey);
    }

    if totalCount > 20 {
      if factorAKey == factorBKey {
        report := report.(twoWayError := Some(SameFactorsMessage));
      } else {
        var raw := CalculateTwoWayAnova(rows, factorAKey, factorBKey, questionKey);
        match raw
        case Table(t) =>
          report := report.(twoWay := Some(t));
        case Failed(e) =>
          report := report.(twoWayError := Some(e.Message()));
      }
    } else {
      report := report.(twoWayError := Some(TooFewRowsMessage));
    }
  }

  // ---------------------------------------------------------------------
  // Properties of the analysis step

  /** Nothing is analysed, and the error message is left as it was, unless
      there was no error so far, the role is an analyst role and more than
      ten rows are stored; when the rows then cannot be loaded, only the
      load error is set. */
  lemma AnalysesGate(errorMessage: Option<string>, role: Option<string>, totalCount: int, surveyData: Option<seq<Row>>,
                     groupKey: string, questionKey: string, factorAKey: string, factorBKey: string)
    ensures var r := Analyses(errorMessage, role, totalCount, surveyData, groupKey, questionKey, factorAKey, factorBKey);
      var analysed := r.anova.Some? || r.tukey.Some? || r.twoWay.Some? || r.twoWayError.Some?;
      && (analysed ==> errorMessage.None? && MayAnalyse(role) && totalCount > 10 && surveyData.Some?)
      && (errorMessage.Some? || !MayAnalyse(role) || totalCount <= 10 ==> r.errorMessage == errorMessage && !analysed)
      && (errorMessage.None? && MayAnalyse(role) && totalCount > 10 ==>
            (r.errorMessage.Some? <==> surveyData.None?) && (surveyData.None? ==> !analysed))
  {
  }

  /** A missing role or any role but `admin` and `editor` sees no analysis.
      The page's `in_array` is the loose one, but a stored role is a string
      and neither `admin` nor `editor` is numeric, so loose equality with
      them is string equality. */
  lemma RoleGate(role: Option<string>)
    ensures MayAnalyse(role) <==> role == Some("admin") || role == Some("editor")
  {
  }

  /** Tukey's HSD is reported exactly when the one-way result exists and is
      significant: a positive significance level means F > 2.5, hence a
      positive `ms_within`, and the retained groups are at least two, so
      `calculate_tukey_hsd` never returns null here. */
  lemma TukeyAfterSignificantAnova(rows: seq<Row>, groupKey: string, questionKey: string)
    ensures var anova := OneWay(rows, groupKey, questionKey);
      && (PostHoc(rows, groupKey, questionKey).Some? <==> anova.Some? && anova.value.significanceLevel > 0.0)
      && (anova.Some? && anova.value.significanceLevel > 0.0 ==>
            NonEmptyGroups(anova.value.groups) &&
            PostHoc(rows, groupKey, questionKey) == Tukey(anova.value.groups, anova.value.msWithin, anova.value.dfWithin))
  {
    var anova := OneWay(rows, groupKey, questionKey);
    if anova.Some? && anova.value.significanceLevel > 0.0 {
      var r := anova.value;
      AnovaGroupsUsable(rows, groupKey, questionKey);
      OneWayFValue(rows, groupKey, questionKey);
      OneWayDegreesOfFreedom(rows, groupKey, questionKey);
      assert r.fValue > 2.5;
      assert r.msWithin > 0.0;
      TukeyNoneIff(r.groups, r.msWithin, r.dfWithin);
    }
  }

  /** The two-way analysis runs only with more than twenty rows and two
      different factor keys; otherwise exactly one of the two messages says why. */
  lemma TwoWayGate(rows: seq<Row>, totalCount: int, questionKey: string, factorAKey: string, factorBKey: string)
    ensures var (t, e) := TwoWayStep(rows, totalCount, questionKey, factorAKey, factorBKey);
      && (t.Some? <==> e.None?)
      && (t.Some? ==>
            totalCount > 20 && factorAKey != factorBKey && TwoWay(rows, factorAKey, factorBKey, questionKey) == Table(t.value))
      && (e == Some(TooFewRowsMessage) <==> totalCount <= 20)
      && (e == Some(SameFactorsMessage) <==> totalCount > 20 && factorAKey == factorBKey)
      && (totalCount > 20 && factorAKey != factorBKey && e.Some? ==>
            TwoWay(rows, factorAKey, factorBKey, questionKey) == Failed(ErrorOf(e.value)))
  {
    var outcome := TwoWay(rows, factorAKey, factorBKey, questionKey);
    if outcome.Failed? {
      MessagesDiffer(outcome.error);
    }
  }

  /** The error whose message is s (the cell error for any other string). */
  function ErrorOf(s: string): TwoWayError
  {
    if s == BadDegreesOfFreedom.Message() then BadDegreesOfFreedom
    else if s == TooFewLevels.Message() then TooFewLevels
    else CellTooSmall
  }

  /** The three two-way messages differ from each other and from the two
      page messages, so the message on the page tells which check failed. */
  lemma MessagesDiffer(e: TwoWayError)
    ensures ErrorOf(e.Message()) == e
    ensures e.Message() != TooFewRowsMessage && e.Message() != SameFactorsMessage
  {
    assert TooFewRowsMessage[0] != SameFactorsMessage[0];
    match e
    case CellTooSmall =>
      assert e.Message()[0] != BadDegreesOfFreedom.Message()[0] && e.Message()[1] != TooFewLevels.Message()[1];
      assert e.Message()[0] != TooFewRowsMessage[0] && e.Message()[0] != SameFactorsMessage[0];
    case TooFewLevels =>
      assert e.Message()[0] != BadDegreesOfFreedom.Message()[0];
      assert e.Message()[0] != TooFewRowsMessage[0] && e.Message()[0] != SameFactorsMessage[0];
    case BadDegreesOfFreedom =>
      assert e.Message()[0] != TooFewRowsMessage[0] && e.Message()[0] != SameFactorsMessage[0];
  }
}
