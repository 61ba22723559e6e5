/**
 The example Flask backend's decision logic: the upload extension check, the
 choice of which frames to read, the placeholder verdict, and the checks the
 `/api/analyze` route makes before it analyses anything. Video decoding, the
 temporary file and the HTTP framework are not modelled; the number of frames
 read and the random draws are inputs.
 */
module Backend {
  import opened Types

  const AllowedExtensions: set<string> := {"mp4", "avi", "mov", "webm"}

  /** `str.lower()` on one character, for the ASCII letters. */
  function LowerChar(c: char): char {
    if 'A' <= c <= 'Z' then (c as int + 32) as char else c
  }

  /** `str.lower()` for ASCII text: each capital becomes its own small letter, every other character is kept. */
  function Lower(s: string): (r: string)
    ensures |r| == |s|
    ensures forall k :: 0 <= k < |s| ==> !('A' <= r[k] <= 'Z')
    ensures forall k :: 0 <= k < |s| && !('A' <= s[k] <= 'Z') ==> r[k] == s[k]
    ensures forall k :: 0 <= k < |s| && 'A' <= s[k] <= 'Z' ==> r[k] as int == s[k] as int - 'A' as int + 'a' as int
  {
    seq(|s|, k requires 0 <= k < |s| => LowerChar(s[k]))
  }

  /** Index of the last `c` in `s`, or -1 when there is none. */
  function LastIndexOf(s: string, c: char): (r: int)
    ensures -1 <= r < |s|
    ensures r == -1 <==> c !in s
    ensures r >= 0 ==> s[r] == c && forall j :: r < j < |s| ==> s[j] != c
    decreases |s|
  {
    if s == [] then -1
    else if s[|s| - 1] == c then |s| - 1
    else LastIndexOf(s[..|s| - 1], c)
  }

  /** `allowed_file`: `'.' in filename and filename.rsplit('.', 1)[1].lower() in ALLOWED_EXTENSIONS`. */
  function AllowedFile(filename: string): (ok: bool)
    ensures ok ==> '.' in filename
    ensures ok ==> |filename| - LastIndexOf(filename, '.') - 1 in {3, 4}
  {
    var dot := LastIndexOf(filename, '.');
    dot >= 0 && Lower(filename[dot + 1..]) in AllowedExtensions
  }

  /** A name without a dot is refused. */
  lemma NoDotRefused(filename: string)
    requires '.' !in filename
    ensures !AllowedFile(filename)
  {
  }

  /**
   A name with a dot is accepted exactly when the text after its last dot,
   lower-cased, is one of the four extensions; the stem may hold more dots.
   */
  lemma AllowedFileByExtension(stem: string, ext: string)
    requires '.' !in ext
    ensures AllowedFile(stem + "." + ext) <==> Lower(ext) in AllowedExtensions
  {
    var name := stem + "." + ext;
    var dot := LastIndexOf(name, '.');
    assert name[|stem|] == '.';
    assert forall j :: |stem| < j < |name| ==> name[j] == ext[j - |stem| - 1];
    assert dot == |stem|;
    assert name[dot + 1..] == ext;
  }

  /** The check ignores case: an extension in upper case is accepted as its lower-case form is. */
  lemma AllowedFileIgnoresCase(stem: string, ext: string)
    requires '.' !in ext
    ensures AllowedFile(stem + "." + ext) == AllowedFile(stem + "." + Lower(ext))
  {
    assert Lower(Lower(ext)) == Lower(ext);
    assert '.' !in Lower(ext) by {
      forall k | 0 <= k < |ext| ensures Lower(ext)[k] != '.' {
        assert ext[k] != '.';
      }
    }
    AllowedFileByExtension(stem, ext);
    AllowedFileByExtension(stem, Lower(ext));
  }

  /** `X.MP4` is accepted. */
  lemma UpperCaseMp4Accepted()
    ensures AllowedFile("X.MP4")
  {
    assert "X.MP4" == "X" + "." + "MP4";
    assert Lower("MP4") == "mp4";
    AllowedFileByExtension("X", "MP4");
  }

  /**
   The frame indices `extract_frames` reads: every frame when the window holds
   at most `maxFrames`, otherwise `maxFrames` indices `step` apart, where `step`
   is the window size divided by `maxFrames`, rounded down.
   */
  function FrameIndices(windowFrames: int, maxFrames: int): (r: seq<int>)
    requires maxFrames > 0
    ensures |r| <= maxFrames
    ensures |r| == (if windowFrames <= 0 then 0 else if windowFrames <= maxFrames then windowFrames else maxFrames)
    ensures r != [] ==> r[0] == 0
  {
    if windowFrames <= maxFrames then
      seq(if windowFrames < 0 then 0 else windowFrames, k => k)
    else
      var step := windowFrames / maxFrames;
      seq(maxFrames, k => k * step)
  }

  lemma MulStrictlyMonotone(a: int, b: int, step: int)
    requires a < b && step > 0
    ensures a * step < b * step
  {
    assert b * step - a * step == (b - a) * step;
  }

  /**
   The indices are `0..n-1` for a short window and `k * step` for a long one;
   in both cases there are `min(n, maxFrames)` of them (none for an empty
   window), strictly increasing, and each names a frame inside the window.
   */
  lemma FrameIndicesSound(windowFrames: int, maxFrames: int)
    requires maxFrames > 0
    ensures var r := FrameIndices(windowFrames, maxFrames);
      && |r| == (if windowFrames <= 0 then 0 else if windowFrames <= maxFrames then windowFrames else maxFrames)
      && (windowFrames <= maxFrames ==> forall k :: 0 <= k < |r| ==> r[k] == k)
      && (windowFrames > maxFrames ==> forall k :: 0 <= k < |r| ==> r[k] == k * (windowFrames / maxFrames))
      && (forall i, j :: 0 <= i < j < |r| ==> r[i] < r[j])
      && (forall k :: 0 <= k < |r| ==> 0 <= r[k] < windowFrames)
  {
    var r := FrameIndices(windowFrames, maxFrames);
    if windowFrames > maxFrames {
      var step := windowFrames / maxFrames;
      assert step >= 1;
      assert maxFrames * step <= windowFrames;
      forall i, j | 0 <= i < j < |r| ensures r[i] < r[j] {
        MulStrictlyMonotone(i, j, step);
      }
      forall k | 0 <= k < |r| ensures 0 <= r[k] < windowFrames {
        MulStrictlyMonotone(k, maxFrames, step);
        assert 0 <= k * step;
      }
    }
  }

  /**
   In a long window the spacing is not spread over the whole window: after the
   last index read come `step - 1 + windowFrames % maxFrames` frames that are
   never read.
   */
  lemma FrameIndicesUnreadTail(windowFrames: int, maxFrames: int)
    requires 0 < maxFrames < windowFrames
    ensures var r := FrameIndices(windowFrames, maxFrames);
      windowFrames - 1 - r[|r| - 1] == windowFrames / maxFrames - 1 + windowFrames % maxFrames
  {
    var step := windowFrames / maxFrames;
    assert windowFrames == maxFrames * step + windowFrames % maxFrames;
    assert (maxFrames - 1) * step == maxFrames * step - step;
  }

  /** A window of 19 frames sampled 10 times reads frames 0 to 9 only, leaving 9 unread. */
  lemma NineteenFrameWindow()
    ensures FrameIndices(19, 10) == [0, 1, 2, 3, 4, 5, 6, 7, 8, 9]
    ensures 19 - 1 - FrameIndices(19, 10)[9] == 9
  {
  }

  /** `np.random.randint(lo, hi)` draws from `lo` up to but excluding `hi`. */
  ghost predicate IsRandint(randint: (int, int) -> int) {
    forall lo, hi :: lo < hi ==> lo <= randint(lo, hi) < hi
  }

  const SuspiciousArtifacts: seq<string> := [
    "Inconsistent facial features detected",
    "Unnatural eye movement patterns",
    "Temporal inconsistencies in lighting"]

  const RealExplanation := "No significant AI artifacts detected. Natural facial movements and consistent lighting throughout frames."
  const UncertainExplanation := "Some suspicious patterns detected, but results are inconclusive. Quality may be insufficient for reliable detection."

  /** The character of one decimal digit. */
  function DigitChar(d: nat): (c: char)
    requires d < 10
    ensures '0' <= c <= '9' && c as int - '0' as int == d
  {
    ('0' as int + d) as char
  }

  /** The number a string of decimal digits spells, most significant digit first. */
  function DigitsValue(s: string): int
    decreases |s|
  {
    if s == [] then 0 else 10 * DigitsValue(s[..|s| - 1]) + (s[|s| - 1] as int - '0' as int)
  }

  /** `str(n)` for a natural number: digits that spell `n`, with no leading zero. */
  function DecimalString(n: nat): (s: string)
    ensures s != ""
    ensures forall k :: 0 <= k < |s| ==> '0' <= s[k] <= '9'
    ensures DigitsValue(s) == n
    ensures |s| > 1 ==> s[0] != '0'
  {
    if n < 10 then [DigitChar(n)]
    else
      var front := DecimalString(n / 10);
      var s := front + [DigitChar(n % 10)];
      assert s[..|s| - 1] == front;
      s
  }

  /** The explanation of the `AI-generated` verdict, with both counts written in decimal. */
  function AIGeneratedExplanation(suspicious: nat, total: nat): (s: string)
    ensures var p := "Multiple suspicious artifacts detected in ";
      |s| > |p| && s[..|p|] == p
    ensures var tail := " frames, indicating likely AI generation.";
      |s| > |tail| && s[|s| - |tail|..] == tail
  {
    "Multiple suspicious artifacts detected in " + DecimalString(suspicious)
      + " out of " + DecimalString(total) + " frames, indicating likely AI generation."
  }

  /** The placeholder's suspicious-frame count: a draw from `[0, n // 2)` once there are more than 5 frames. */
  function SuspiciousCount(n: nat, randint: (int, int) -> int): (s: int)
    requires IsRandint(randint)
    ensures n <= 5 ==> s == 0
    ensures n > 5 ==> 0 <= s < n / 2
  {
    if n > 5 then randint(0, n / 2) else 0
  }

  /**
   The verdict rule: no suspicious frame gives `Real`, more than 60 per cent
   gives `AI-generated`, anything between gives `Uncertain`, each with a
   confidence drawn from its own range.
   */
  function Classify(n: nat, suspicious: nat, artifacts: seq<string>, randint: (int, int) -> int): (r: AnalysisResult)
    requires IsRandint(randint)
    ensures r.frameAnalysis == Some(FrameAnalysis(n, suspicious, artifacts))
    ensures suspicious == 0 ==> r.prediction == Real && 85 <= r.confidence <= 94
    ensures suspicious > 0 && 5 * suspicious > 3 * n ==> r.prediction == AIGenerated && 80 <= r.confidence <= 94
    ensures suspicious > 0 && 5 * suspicious <= 3 * n ==> r.prediction == Uncertain && 50 <= r.confidence <= 69
    ensures r.explanation != ""
  {
    var fa := Some(FrameAnalysis(n, suspicious, artifacts));
    if suspicious == 0 then
      AnalysisResult(Real, randint(85, 95), RealExplanation, fa)
    else if 5 * suspicious > 3 * n then
      AnalysisResult(AIGenerated, randint(80, 95), AIGeneratedExplanation(suspicious, n), fa)
    else
      AnalysisResult(Uncertain, randint(50, 70), UncertainExplanation, fa)
  }

  /** `analyze_frames_for_deepfake` on `n` frames. */
  function AnalyzeFrames(n: nat, randint: (int, int) -> int): (r: AnalysisResult)
    requires IsRandint(randint)
    ensures r.frameAnalysis.Some?
    ensures var fa := r.frameAnalysis.value;
      && fa.totalFrames == n
      && 0 <= fa.suspiciousFrames <= fa.totalFrames
      && (n <= 5 ==> fa.suspiciousFrames == 0)
      && (fa.artifacts != [] <==> fa.suspiciousFrames > 0)
    ensures WellFormed(r)
  {
    var s := SuspiciousCount(n, randint);
    var artifacts := if n > 5 && s > 0 then SuspiciousArtifacts else [];
    var r := Classify(n, s, artifacts, randint);
    assert forall k :: 0 <= k < |artifacts| ==> artifacts[k] != "" by {
      if artifacts != [] {
        assert |artifacts[0]| > 0 && |artifacts[1]| > 0 && |artifacts[2]| > 0;
      }
    }
    r
  }

  /**
   The `AI-generated` branch is never taken: more than 5 frames draw fewer
   than `n // 2` suspicious ones, never more than 60 per cent; so a suspicious
   frame always yields `Uncertain`.
   */
  lemma AIGeneratedUnreachable(n: nat, randint: (int, int) -> int)
    requires IsRandint(randint)
    ensures AnalyzeFrames(n, randint).prediction != AIGenerated
    ensures AnalyzeFrames(n, randint).frameAnalysis.value.suspiciousFrames > 0 ==>
              AnalyzeFrames(n, randint).prediction == Uncertain
  {
    var s := SuspiciousCount(n, randint);
    if n > 5 {
      assert s < n / 2;
      assert 2 * (n / 2) <= n;
      assert 5 * s <= 3 * n;
    }
  }

  /** A reply of the `/api/analyze` route. */
  datatype Reply = ErrorReply(status: int, message: string) | ResultReply(result: AnalysisResult)

  const NoVideoMessage := "No video file provided"
  const NoFileSelectedMessage := "No file selected"
  const InvalidTypeMessage := "Invalid file type. Please upload MP4, AVI, MOV, or WebM"
  const NoFramesMessage := "Could not extract frames from video"

  /**
   The checks of `analyze_video` before the upload is saved, in order: the
   `video` field, then an empty file name, then the extension. `files` maps each
   multipart field to its file name; None means every check passed.
   */
  function ValidateUpload(files: map<string, string>): (r: Option<Reply>)
    ensures "video" !in files ==> r == Some(ErrorReply(400, NoVideoMessage))
    ensures "video" in files && files["video"] == "" ==> r == Some(ErrorReply(400, NoFileSelectedMessage))
    ensures "video" in files && files["video"] != "" && !AllowedFile(files["video"]) ==>
              r == Some(ErrorReply(400, InvalidTypeMessage))
    ensures r.None? <==> "video" in files && AllowedFile(files["video"])
  {
    if "video" !in files then Some(ErrorReply(400, NoVideoMessage))
    else if files["video"] == "" then Some(ErrorReply(400, NoFileSelectedMessage))
    else if !AllowedFile(files["video"]) then Some(ErrorReply(400, InvalidTypeMessage))
    else None
  }

  /**
   The route once the upload has been saved and `framesRead` frames came back
   from `extract_frames`: no frame is a 400, otherwise the analysis of those frames.
   */
  function AnalyzeVideoRoute(files: map<string, string>, framesRead: nat, randint: (int, int) -> int): (r: Reply)
    requires IsRandint(randint)
    ensures r.ResultReply? <==> ValidateUpload(files).None? && framesRead > 0
    ensures ValidateUpload(files).Some? ==> r == ValidateUpload(files).value
    ensures ValidateUpload(files).None? && framesRead == 0 ==> r == ErrorReply(400, NoFramesMessage)
    ensures r.ResultReply? ==>
              WellFormed(r.result) && r.result.frameAnalysis.Some? && r.result.frameAnalysis.value.totalFrames == framesRead
    ensures r.ErrorReply? ==> r.status == 400
  {
    match ValidateUpload(files)
    case Some(reply) => reply
    case None =>
      if framesRead == 0 then ErrorReply(400, NoFramesMessage)
      else ResultReply(AnalyzeFrames(framesRead, randint))
  }
}
