/**
 * The dashboard's upload workflow: the state the page keeps (results,
 * loading and started flags, threshold, chosen file, error, success) and
 * the handlers that change it. The analysis request itself is not modelled;
 * its outcome is a parameter.
 */
module App {
  import opened JsBuiltins
  import opened Records
  import opened StatusFeedback

  const NoFileMessage := "No file selected. Please upload a CSV dataset."
  const EmptyThresholdMessage := "Inactivity threshold cannot be empty."
  const LowThresholdMessage := "Minimum inactivity threshold is 60 days."
  const InvalidFormatMessage := "Invalid file format. Please select a .CSV file."

  const MinimumThreshold := 60
  const InitialThreshold := 60

  /** A file chosen in the browser; only its name matters here. */
  datatype FileRef = FileRef(name: string)

  /**
   * The inactivity threshold as the page holds it: the number it starts
   * with, or the text last typed into the number field together with what
   * `parseInt` reads from that text (`None` for NaN).
   */
  datatype Threshold = Number(days: int) | Text(text: string, parsed: Option<int>)

  /** `!threshold || threshold === ""`: the number 0 or the empty text. */
  predicate IsEmptyThreshold(t: Threshold) {
    match t
    case Number(days) => days == 0
    case Text(text, _) => text == ""
  }

  /** `parseInt(threshold) < 60`; NaN is not below anything, so unreadable text passes. */
  predicate IsBelowMinimum(t: Threshold) {
    match t
    case Number(days) => days < MinimumThreshold
    case Text(_, parsed) => parsed.Some? && parsed.value < MinimumThreshold
  }

  /**
   * The checks made before a request is sent, in their order: a file must
   * be chosen, then the threshold must not be empty, then it must not be
   * below 60. The result is the message of the first check that fails.
   */
  function Validate(file: Option<FileRef>, threshold: Threshold): (rejection: Option<string>)
    ensures file.None? ==> rejection == Some(NoFileMessage)
    ensures file.Some? && IsEmptyThreshold(threshold) ==> rejection == Some(EmptyThresholdMessage)
    ensures file.Some? && !IsEmptyThreshold(threshold) && IsBelowMinimum(threshold) ==> rejection == Some(LowThresholdMessage)
    ensures rejection.None? <==> file.Some? && !IsEmptyThreshold(threshold) && !IsBelowMinimum(threshold)
  {
    if file.None? then Some(NoFileMessage)
    else if IsEmptyThreshold(threshold) then Some(EmptyThresholdMessage)
    else if IsBelowMinimum(threshold) then Some(LowThresholdMessage)
    else None
  }

  /**
   * What the threshold checks let through: typed text is accepted when it is
   * not empty and `parseInt` reads from it either a number of at least 60 or
   * nothing at all; the typed text "0" counts as a number below 60, not as
   * empty.
   */
  lemma TypedThresholdChecks(file: FileRef, text: string, parsed: Option<int>)
    ensures Validate(Some(file), Text(text, parsed)).None? <==> text != "" && (parsed.None? || parsed.value >= MinimumThreshold)
    ensures text == "0" && parsed == Some(0) ==> Validate(Some(file), Text(text, parsed)) == Some(LowThresholdMessage)
  {
  }

  /** The three rejections are told apart by their messages. */
  lemma RejectionsAreDistinct()
    ensures NoFileMessage != EmptyThresholdMessage
    ensures NoFileMessage != LowThresholdMessage
    ensures EmptyThresholdMessage != LowThresholdMessage
  {
    assert |NoFileMessage| == 46 && |EmptyThresholdMessage| == 37 && |LowThresholdMessage| == 40;
  }

  // ---------------------------------------------------------------------------
  // The file-name check.

  /** `toLowerCase` on one character, for the ASCII letters. */
  function LowerAscii(c: char): char {
    if 'A' <= c <= 'Z' then (c as int + 32) as char else c
  }

  function Lowercase(s: string): (lower: string)
    ensures |lower| == |s|
    ensures forall i :: 0 <= i < |s| ==> lower[i] == LowerAscii(s[i])
  {
    seq(|s|, i requires 0 <= i < |s| => LowerAscii(s[i]))
  }

  predicate EndsWith(s: string, suffix: string) {
    |suffix| <= |s| && s[|s| - |suffix|..] == suffix
  }

  /** `name.toLowerCase().endsWith('.csv')`. */
  predicate IsCsvName(name: string) {
    EndsWith(Lowercase(name), ".csv")
  }

  /** A name passes the check exactly when it ends in a dot and the letters c, s, v in either case. */
  lemma CsvNameByLetters(name: string)
    ensures IsCsvName(name) <==>
      && |name| >= 4
      && name[|name| - 4] == '.'
      && (name[|name| - 3] == 'c' || name[|name| - 3] == 'C')
      && (name[|name| - 2] == 's' || name[|name| - 2] == 'S')
      && (name[|name| - 1] == 'v' || name[|name| - 1] == 'V')
  {
    var lower := Lowercase(name);
    if |name| >= 4 {
      var n := |name|;
      assert lower[n - 4..] == [lower[n - 4], lower[n - 3], lower[n - 2], lower[n - 1]];
    }
  }

  // ---------------------------------------------------------------------------
  // The page state.

  /** How the analysis request ended. */
  datatype Outcome = Success(result: AnalysisResult) | Failure(error: ApiError)

  /** What is sent to the backend: the chosen file and the threshold. */
  datatype AnalysisRequest = AnalysisRequest(file: FileRef, threshold: Threshold)

  class SalesRecoveryApp {
    var analysisResults: Option<AnalysisResult>
    var isLoadingData: bool
    var hasStarted: bool
    var threshold: Threshold
    var selectedFile: Option<FileRef>
    var apiError: Option<ApiError>
    var isSuccess: bool

    /** Success is only ever reported together with results. */
    ghost predicate Valid()
      reads this
    {
      isSuccess ==> analysisResults.Some?
    }

    /** The Analyze button is disabled without a file or while a request runs. */
    predicate AnalyzeDisabled()
      reads this
    {
      selectedFile.None? || isLoadingData
    }

    /** The dashboard is shown once an analysis started or while results exist. */
    predicate DashboardVisible()
      reads this
    {
      hasStarted || analysisResults.Some?
    }

    /** What the feedback area shows for the current error and success flag. */
    function Banner(): Feedback
      reads this
    {
      Describe(apiError, isSuccess)
    }

    /** What the invariant buys: a success banner is only shown with results, and so with the dashboard. */
    lemma SuccessShowsDashboard()
      requires Valid()
      ensures Banner().SuccessBanner? ==> analysisResults.Some? && DashboardVisible()
    {
    }

    /** No results, file or error; not loading, started or successful; a threshold of 60. */
    constructor ()
      ensures Valid()
      ensures analysisResults.None? && selectedFile.None? && apiError.None?
      ensures !isLoadingData && !hasStarted && !isSuccess
      ensures threshold == Number(InitialThreshold)
      ensures !DashboardVisible() && AnalyzeDisabled() && Banner().Hidden?
    {
      analysisResults := None;
      isLoadingData := false;
      hasStarted := false;
      threshold := Number(InitialThreshold);
      selectedFile := None;
      apiError := None;
      isSuccess := false;
    }

    /** Typing into the threshold field. */
    method SetThreshold(text: string, parsed: Option<int>)
      requires Valid()
      modifies this
      ensures Valid()
      ensures threshold == Text(text, parsed)
      ensures analysisResults == old(analysisResults) && selectedFile == old(selectedFile) && apiError == old(apiError)
      ensures isLoadingData == old(isLoadingData) && hasStarted == old(hasStarted) && isSuccess == old(isSuccess)
    {
      threshold := Text(text, parsed);
    }

    /**
     * `onFileChange`: clears the error and success flag; a chosen file whose
     * name does not end in ".csv" (in any case) is refused with an error and
     * unselects the current file; another chosen file becomes the selection;
     * with no file chosen nothing else changes. Results are kept in every case.
     */
    method OnFileChange(chosen: Option<FileRef>)
      requires Valid()
      modifies this
      ensures Valid()
      ensures !isSuccess
      ensures chosen.Some? && !IsCsvName(chosen.value.name) ==>
        apiError == Some(LocalError(InvalidFormatMessage)) && selectedFile.None?
      ensures chosen.Some? && IsCsvName(chosen.value.name) ==> apiError.None? && selectedFile == chosen
      ensures chosen.None? ==> apiError.None? && selectedFile == old(selectedFile)
      ensures analysisResults == old(analysisResults) && threshold == old(threshold)
      ensures isLoadingData == old(isLoadingData) && hasStarted == old(hasStarted)
    {
      apiError := None;
      isSuccess := false;
      if chosen.Some? {
        if !IsCsvName(chosen.value.name) {
          apiError := Some(LocalError(InvalidFormatMessage));
          selectedFile := None;
          return;
        }
        selectedFile := chosen;
      }
    }

    /**
     * The first part of `handleSalesFileUpload`, up to the request: clear the
     * error and success flag, run the checks in order and stop at the first
     * failure with its message; otherwise mark the page as loading and
     * started, which shows the dashboard and disables Analyze, and send the
     * chosen file with the threshold.
     */
    method SubmitAnalysis() returns (request: Option<AnalysisRequest>)
      requires Valid()
      modifies this
      ensures Valid()
      ensures !isSuccess
      ensures var rejection := Validate(old(selectedFile), old(threshold));
        && (rejection.Some? ==>
              && request.None? && apiError == Some(LocalError(rejection.value))
              && isLoadingData == old(isLoadingData) && hasStarted == old(hasStarted))
        && (rejection.None? ==>
              && request == Some(AnalysisRequest(old(selectedFile).value, old(threshold)))
              && apiError.None? && isLoadingData && hasStarted
              && DashboardVisible() && AnalyzeDisabled())
      ensures analysisResults == old(analysisResults) && selectedFile == old(selectedFile) && threshold == old(threshold)
    {
      apiError := None;
      isSuccess := false;
      if selectedFile.None? {
        apiError := Some(LocalError(NoFileMessage));
        return None;
      }
      if IsEmptyThreshold(threshold) {
        apiError := Some(LocalError(EmptyThresholdMessage));
        return None;
      }
      if IsBelowMinimum(threshold) {
        apiError := Some(LocalError(LowThresholdMessage));
        return None;
      }
      isLoadingData := true;
      hasStarted := true;
      request := Some(AnalysisRequest(selectedFile.value, threshold));
    }

    /**
     * The rest of `handleSalesFileUpload`, once the request has ended: a
     * success stores the results and reports success; a failure un-starts the
     * analysis and stores the error, keeping the file and any earlier
     * results; either way loading ends.
     */
    method ReceiveOutcome(outcome: Outcome)
      requires Valid()
      modifies this
      ensures Valid()
      ensures !isLoadingData
      ensures outcome.Success? ==>
        && analysisResults == Some(outcome.result) && isSuccess
        && hasStarted == old(hasStarted) && apiError == old(apiError)
      ensures outcome.Failure? ==>
        && analysisResults == old(analysisResults) && isSuccess == old(isSuccess)
        && !hasStarted && apiError == Some(outcome.error)
      ensures selectedFile == old(selectedFile) && threshold == old(threshold)
    {
      match outcome {
        case Success(result) =>
          analysisResults := Some(result);
          isSuccess := true;
        case Failure(error) =>
          hasStarted := false;
          apiError := Some(error);
      }
      isLoadingData := false;
    }

    /**
     * `handleSalesFileUpload` from the click to the end of the request, with
     * nothing else happening in between. A rejected upload only shows its
     * message. A successful one shows the dashboard with the new results and
     * the success banner; a failed one shows the translated backend error and
     * keeps the earlier results, so the dashboard stays only if there were
     * any. After either, Analyze is enabled again.
     */
    method HandleSalesFileUpload(outcome: Outcome) returns (request: Option<AnalysisRequest>)
      requires Valid()
      modifies this
      ensures Valid()
      ensures var rejection := Validate(old(selectedFile), old(threshold));
        && (rejection.Some? ==>
              && request.None? && apiError == Some(LocalError(rejection.value)) && !isSuccess
              && isLoadingData == old(isLoadingData) && hasStarted == old(hasStarted)
              && analysisResults == old(analysisResults)
              && DashboardVisible() == old(DashboardVisible())
              && Banner() == ErrorBanner(ErrorMessage(rejection.value)))
        && (rejection.None? ==>
              && request == Some(AnalysisRequest(old(selectedFile).value, old(threshold)))
              && !isLoadingData && !AnalyzeDisabled())
        && (rejection.None? && outcome.Success? ==>
              && analysisResults == Some(outcome.result) && isSuccess && hasStarted && apiError.None?
              && DashboardVisible() && Banner() == SuccessBanner(SuccessMessage))
        && (rejection.None? && outcome.Failure? ==>
              && analysisResults == old(analysisResults) && !isSuccess && !hasStarted
              && apiError == Some(outcome.error)
              && (DashboardVisible() <==> old(analysisResults).Some?)
              && Banner() == ErrorBanner(ErrorMessage(Detail(outcome.error))))
      ensures selectedFile == old(selectedFile) && threshold == old(threshold)
    {
      request := SubmitAnalysis();
      if request.Some? {
        ReceiveOutcome(outcome);
      }
      assert Validate(old(selectedFile), old(threshold)).Some? ==>
        Detail(LocalError(Validate(old(selectedFile), old(threshold)).value)) == Validate(old(selectedFile), old(threshold)).value;
    }

    /** The Remove button: back to no file, no results, not started, no error, no success. */
    method HandleRemoveFile()
      requires Valid()
      modifies this
      ensures Valid()
      ensures selectedFile.None? && analysisResults.None? && !hasStarted && apiError.None? && !isSuccess
      ensures isLoadingData == old(isLoadingData) && threshold == old(threshold)
      ensures !DashboardVisible()
      ensures Banner().Hidden?
    {
      selectedFile := None;
      analysisResults := None;
      hasStarted := false;
      apiError := None;
      isSuccess := false;
    }

    /** The Dismiss button of the feedback area: clears the error and the success flag. */
    method Dismiss()
      requires Valid()
      modifies this
      ensures Valid()
      ensures apiError.None? && !isSuccess && Banner().Hidden?
      ensures analysisResults == old(analysisResults) && selectedFile == old(selectedFile) && threshold == old(threshold)
      ensures isLoadingData == old(isLoadingData) && hasStarted == old(hasStarted)
    {
      apiError := None;
      isSuccess := false;
    }
  }
}
