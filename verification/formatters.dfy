/** The display helpers shared by the dashboard's views: status colours, durations,
    process names and embeddable task URLs. */
module Formatters {
  import opened Wrappers
  import opened Strings
  import opened Seqs

  // ---------------------------------------------------------------------
  // getStatusColor
  // ---------------------------------------------------------------------

  const RunningClass := "bg-blue-100 text-blue-800"
  const DoneClass := "bg-green-100 text-green-800"
  const FailedClass := "bg-red-100 text-red-800"
  const WaitingClass := "bg-yellow-100 text-yellow-800"
  const NeutralClass := "bg-gray-100 text-gray-800"

  /** The statuses the switch names before reaching its default */
  const ColouredStatuses: set<string> :=
    {"running", "completed", "successful", "faulted", "failed", "pending", "waiting"}

  /** The badge class of a run status; the comparison ignores case */
  function StatusColor(status: string): (r: string)
    ensures r == RunningClass <==> Lower(status) == "running"
    ensures r == DoneClass <==> Lower(status) in {"completed", "successful"}
    ensures r == FailedClass <==> Lower(status) in {"faulted", "failed"}
    ensures r == WaitingClass <==> Lower(status) in {"pending", "waiting"}
    ensures r == NeutralClass <==> Lower(status) !in ColouredStatuses
  {
    var s := Lower(status);
    if s == "running" then RunningClass
    else if s == "completed" || s == "successful" then DoneClass
    else if s == "faulted" || s == "failed" then FailedClass
    else if s == "pending" || s == "waiting" then WaitingClass
    else if s == "cancelled" || s == "canceled" then NeutralClass
    else NeutralClass
  }

  /** Only the lower-cased status matters */
  lemma StatusColorIgnoresCase(status: string)
    ensures StatusColor(status) == StatusColor(Lower(status))
  {
    LowerIdempotent(status);
  }

  /** The synonym pairs share a class */
  lemma StatusColorSynonyms(a: string, b: string)
    requires || {Lower(a), Lower(b)} <= {"completed", "successful"}
             || {Lower(a), Lower(b)} <= {"faulted", "failed"}
             || {Lower(a), Lower(b)} <= {"pending", "waiting"}
             || {Lower(a), Lower(b)} <= {"cancelled", "canceled"}
    ensures StatusColor(a) == StatusColor(b)
  {
    assert Lower("cancelled") == "cancelled";
    assert Lower("canceled") == "canceled";
  }

  /** A status the switch does not name gets the same class as "cancelled" */
  lemma StatusColorDefault(status: string)
    requires Lower(status) !in ColouredStatuses
    ensures StatusColor(status) == StatusColor("cancelled")
  {
    assert Lower("cancelled") == "cancelled";
  }

  // ---------------------------------------------------------------------
  // formatDuration
  // ---------------------------------------------------------------------

  const MsPerSecond := 1000
  const MsPerMinute := 60_000
  const MsPerHour := 3_600_000
  const MsPerDay := 86_400_000

  /** The four shapes of a rendered duration */
  datatype Duration =
    | Days(days: int, hours: int, minutes: int)
    | Hours(hours: int, minutes: int)
    | Minutes(minutes: int, seconds: int)
    | Seconds(seconds: int)

  /** JavaScript's `%`: the remainder takes the sign of the dividend */
  function JsRem(a: int, b: int): (r: int)
    requires b > 0
    ensures a >= 0 ==> r == a % b
  {
    if a >= 0 then a % b else -((-a) % b)
  }

  /** The unit counts of `formatDuration` for a span of `ms` milliseconds (`Math.floor`
      of a division by a positive constant is Dafny's `/`), and the shape picked by
      the largest non-zero unit */
  function Breakdown(ms: int): (d: Duration)
    ensures d.Days? <==> ms >= MsPerDay
    ensures d.Hours? <==> MsPerHour <= ms < MsPerDay
    ensures d.Minutes? <==> MsPerMinute <= ms < MsPerHour
    ensures d.Seconds? <==> ms < MsPerMinute
    ensures d.Days? ==>
      && d.days > 0 && 0 <= d.hours < 24 && 0 <= d.minutes < 60
      && d.days * MsPerDay + d.hours * MsPerHour + d.minutes * MsPerMinute <= ms
      && ms < d.days * MsPerDay + d.hours * MsPerHour + (d.minutes + 1) * MsPerMinute
    ensures d.Hours? ==>
      && 0 < d.hours < 24 && 0 <= d.minutes < 60
      && d.hours * MsPerHour + d.minutes * MsPerMinute <= ms
      && ms < d.hours * MsPerHour + (d.minutes + 1) * MsPerMinute
    ensures d.Minutes? ==>
      && 0 < d.minutes < 60 && 0 <= d.seconds < 60
      && d.minutes * MsPerMinute + d.seconds * MsPerSecond <= ms
      && ms < d.minutes * MsPerMinute + (d.seconds + 1) * MsPerSecond
    ensures d.Seconds? ==> d.seconds * MsPerSecond <= ms < (d.seconds + 1) * MsPerSecond
  {
    var seconds := ms / 1000;
    var minutes := seconds / 60;
    var hours := minutes / 60;
    var days := hours / 24;
    if days > 0 then Days(days, JsRem(hours, 24), JsRem(minutes, 60))
    else if hours > 0 then Hours(hours, JsRem(minutes, 60))
    else if minutes > 0 then Minutes(minutes, JsRem(seconds, 60))
    else Seconds(seconds)
  }

  /** One number followed by its unit letter, as the template literal prints it */
  function UnitText(n: int, unit: char): (r: string)
  {
    IntToString(n) + [unit]
  }

  /** The space-separated words of a rendered duration */
  function Pieces(d: Duration): (r: seq<string>)
  {
    match d
    case Days(days, hours, minutes) => [UnitText(days, 'd'), UnitText(hours, 'h'), UnitText(minutes, 'm')]
    case Hours(hours, minutes) => [UnitText(hours, 'h'), UnitText(minutes, 'm')]
    case Minutes(minutes, seconds) => [UnitText(minutes, 'm'), UnitText(seconds, 's')]
    case Seconds(seconds) => [UnitText(seconds, 's')]
  }

  /** `formatDuration` for a span of `ms` milliseconds: "Dd Hh Mm", "Hh Mm", "Mm Ss" or "Ss" */
  function FormatDuration(ms: int): (r: string)
    ensures Split(r, ' ') == Pieces(Breakdown(ms))
  {
    PiecesHaveNoSpace(Breakdown(ms));
    SplitJoin(Pieces(Breakdown(ms)), ' ');
    Join(Pieces(Breakdown(ms)), ' ')
  }

  /** Reads one "<integer><unit>" word */
  function ParseUnit(w: string, unit: char): (r: Option<int>)
  {
    if |w| > 0 && w[|w| - 1] == unit then ParseInt(w[..|w| - 1]) else None
  }

  /** Reads a rendered duration back */
  function ParseDuration(s: string): (r: Option<Duration>)
  {
    var ws := Split(s, ' ');
    if |ws| == 3 then
      match (ParseUnit(ws[0], 'd'), ParseUnit(ws[1], 'h'), ParseUnit(ws[2], 'm'))
      case (Some(a), Some(b), Some(c)) => Some(Days(a, b, c))
      case _ => None
    else if |ws| == 2 then
      match (ParseUnit(ws[0], 'h'), ParseUnit(ws[1], 'm'), ParseUnit(ws[0], 'm'), ParseUnit(ws[1], 's'))
      case (Some(a), Some(b), _, _) => Some(Hours(a, b))
      case (_, _, Some(a), Some(b)) => Some(Minutes(a, b))
      case _ => None
    else
      match ParseUnit(ws[0], 's')
      case Some(a) => Some(Seconds(a))
      case None => None
  }

  lemma ParseUnitText(n: int, unit: char)
    ensures ParseUnit(UnitText(n, unit), unit) == Some(n)
  {
    var w := UnitText(n, unit);
    assert w[..|w| - 1] == IntToString(n);
  }

  lemma UnitTextHasNoSpace(n: int, unit: char)
    requires unit != ' '
    ensures ' ' !in UnitText(n, unit)
  {
  }

  lemma PiecesHaveNoSpace(d: Duration)
    ensures |Pieces(d)| >= 1 && NoneContains(Pieces(d), ' ')
  {
    match d
    case Days(a, b, c) =>
      UnitTextHasNoSpace(a, 'd'); UnitTextHasNoSpace(b, 'h'); UnitTextHasNoSpace(c, 'm');
    case Hours(a, b) =>
      UnitTextHasNoSpace(a, 'h'); UnitTextHasNoSpace(b, 'm');
    case Minutes(a, b) =>
      UnitTextHasNoSpace(a, 'm'); UnitTextHasNoSpace(b, 's');
    case Seconds(a) =>
      UnitTextHasNoSpace(a, 's');
  }

  /** Nothing is lost in rendering: the unit counts and the shape can be read back */
  lemma FormatDurationRoundTrip(ms: int)
    ensures ParseDuration(FormatDuration(ms)) == Some(Breakdown(ms))
  {
    var d := Breakdown(ms);
    PiecesHaveNoSpace(d);
    SplitJoin(Pieces(d), ' ');
    match d
    case Days(a, b, c) =>
      ParseUnitText(a, 'd'); ParseUnitText(b, 'h'); ParseUnitText(c, 'm');
    case Hours(a, b) =>
      ParseUnitText(a, 'h'); ParseUnitText(b, 'm');
    case Minutes(a, b) =>
      ParseUnitText(a, 'm'); ParseUnitText(b, 's');
      assert ParseUnit(UnitText(b, 's'), 'm') == None;
    case Seconds(a) =>
      ParseUnitText(a, 's');
  }

  /** Under one minute only the (floored) seconds are shown */
  lemma FormatDurationUnderMinute(ms: int)
    requires ms < MsPerMinute
    ensures FormatDuration(ms) == IntToString(ms / MsPerSecond) + "s"
  {
  }

  // ---------------------------------------------------------------------
  // formatProcessName
  // ---------------------------------------------------------------------

  /** `.replace(/c/g, ' ')` for one character */
  function ReplaceChar(s: string, c: char): (r: string)
    ensures |r| == |s| && (c != ' ' ==> c !in r)
    ensures forall i :: 0 <= i < |s| && r[i] != s[i] ==> s[i] == c && r[i] == ' '
  {
    seq(|s|, i requires 0 <= i < |s| => if s[i] == c then ' ' else s[i])
  }

  /** `.replace(/\./g, ' ').replace(/_/g, ' ')` */
  function ReplaceSeparators(s: string): (r: string)
    ensures |r| == |s| && '.' !in r && '_' !in r
    ensures forall i :: 0 <= i < |s| && r[i] != s[i] ==> (s[i] == '.' || s[i] == '_') && r[i] == ' '
  {
    ReplaceChar(ReplaceChar(s, '.'), '_')
  }

  /** A lower-case letter directly followed by an upper-case one */
  predicate CaseBoundary(s: string, i: int)
    requires 0 <= i
  {
    i + 1 < |s| && IsLower(s[i]) && IsUpper(s[i + 1])
  }

  /** Number of lower-to-upper boundaries in `s` */
  function Boundaries(s: string): (r: nat)
  {
    if |s| < 2 then 0 else (if CaseBoundary(s, 0) then 1 else 0) + Boundaries(s[1..])
  }

  /** `.replace(/([a-z])([A-Z])/g, '$1 $2')`: matches are found left to right and do not
      overlap, so after a match the scan resumes behind its upper-case letter */
  function SpaceCaseBoundaries(s: string): (r: string)
  {
    if |s| < 2 then s
    else if CaseBoundary(s, 0) then [s[0], ' ', s[1]] + SpaceCaseBoundaries(s[2..])
    else [s[0]] + SpaceCaseBoundaries(s[1..])
  }

  /** Every lower-to-upper boundary gets exactly one space */
  lemma {:induction false} SpaceCaseBoundariesLength(s: string)
    ensures |SpaceCaseBoundaries(s)| == |s| + Boundaries(s)
  {
    if |s| >= 2 {
      if CaseBoundary(s, 0) {
        SpaceCaseBoundariesLength(s[2..]);
        assert s[1..][1..] == s[2..];
        assert !CaseBoundary(s[1..], 0);
      } else {
        SpaceCaseBoundariesLength(s[1..]);
      }
    }
  }

  /** Only spaces are inserted: the other characters stay, in order */
  lemma {:induction false} SpaceCaseBoundariesKeeps(s: string)
    ensures Filter(NotSpace, SpaceCaseBoundaries(s)) == Filter(NotSpace, s)
  {
    if |s| >= 2 {
      var head := if CaseBoundary(s, 0) then [s[0], ' ', s[1]] else [s[0]];
      var kept := if CaseBoundary(s, 0) then [s[0], s[1]] else [s[0]];
      var tail := s[|kept|..];
      SpaceCaseBoundariesKeeps(tail);
      assert s == kept + tail;
      assert Filter(NotSpace, head) == Filter(NotSpace, kept) by {
        if CaseBoundary(s, 0) {
          assert head == [s[0]] + [' '] + [s[1]];
          FilterAppend(NotSpace, [s[0]] + [' '], [s[1]]);
          FilterAppend(NotSpace, [s[0]], [' ']);
          FilterAppend(NotSpace, [s[0]], [s[1]]);
        }
      }
      FilterAppend(NotSpace, head, SpaceCaseBoundaries(tail));
      FilterAppend(NotSpace, kept, tail);
    }
  }

  /** Apart from the inserted spaces every character comes from the input */
  lemma {:induction false} SpaceCaseBoundariesChars(s: string)
    ensures forall c :: c in SpaceCaseBoundaries(s) && c != ' ' ==> c in s
  {
    if |s| >= 2 {
      if CaseBoundary(s, 0) {
        SpaceCaseBoundariesChars(s[2..]);
        assert forall c :: c in s[2..] ==> c in s;
      } else {
        SpaceCaseBoundariesChars(s[1..]);
        assert forall c :: c in s[1..] ==> c in s;
      }
    }
  }

  /** The first character is kept */
  lemma SpaceCaseBoundariesFirst(s: string)
    requires |s| > 0
    ensures |SpaceCaseBoundaries(s)| > 0 && SpaceCaseBoundaries(s)[0] == s[0]
  {
  }

  /** No lower-case letter is directly followed by an upper-case one */
  predicate NoCaseBoundary(r: string) {
    forall i :: 0 <= i < |r| - 1 ==> !(IsLower(r[i]) && IsUpper(r[i + 1]))
  }

  /** No lower-to-upper boundary is left */
  lemma {:induction false} SpaceCaseBoundariesSeparates(s: string)
    ensures NoCaseBoundary(SpaceCaseBoundaries(s))
  {
    if |s| >= 2 {
      if CaseBoundary(s, 0) {
        var t := SpaceCaseBoundaries(s[2..]);
        SpaceCaseBoundariesSeparates(s[2..]);
        var r := [s[0], ' ', s[1]] + t;
        assert forall i :: 3 <= i < |r| ==> r[i] == t[i - 3];
      } else {
        var t := SpaceCaseBoundaries(s[1..]);
        SpaceCaseBoundariesSeparates(s[1..]);
        var r := [s[0]] + t;
        assert forall i :: 1 <= i < |r| ==> r[i] == t[i - 1];
        if |t| > 0 {
          SpaceCaseBoundariesFirst(s[1..]);
        }
      }
    }
  }

  /** `word.charAt(0).toUpperCase() + word.slice(1).toLowerCase()` */
  function Capitalize(w: string): (r: string)
    ensures |r| == |w|
  {
    if |w| == 0 then "" else [ToUpper(w[0])] + Lower(w[1..])
  }

  /** The first character is not a lower-case letter and no later one is upper-case */
  predicate Capitalized(w: string) {
    (|w| > 0 ==> !IsLower(w[0])) && forall i :: 1 <= i < |w| ==> !IsUpper(w[i])
  }

  /** Capitalising only changes letter case, and gives a capitalised word */
  lemma CapitalizeSpec(w: string)
    ensures Capitalized(Capitalize(w))
    ensures Lower(Capitalize(w)) == Lower(w)
  {
    if |w| > 0 {
      var r := Capitalize(w);
      assert forall i :: 1 <= i < |w| ==> r[i] == ToLower(w[i]);
      assert ToLower(ToUpper(w[0])) == ToLower(w[0]);
    }
  }

  /** Capitalising a word does not create a space */
  lemma CapitalizeNoSpace(w: string)
    requires ' ' !in w
    ensures ' ' !in Capitalize(w)
  {
    if |w| > 0 {
      var r := Capitalize(w);
      assert r[0] != ' ' by { assert w[0] in w; }
      forall i | 1 <= i < |r|
        ensures r[i] != ' '
      {
        assert w[i] in w;
        assert r[i] == Lower(w[1..])[i - 1] == ToLower(w[i]);
      }
    }
  }

  /** `.map(...)` over the words */
  function CapitalizeAll(ws: seq<string>): (r: seq<string>)
    ensures |r| == |ws|
  {
    seq(|ws|, i requires 0 <= i < |ws| => Capitalize(ws[i]))
  }

  /** The letters of the name after the separator and boundary replacements */
  function SpacedName(packageId: string): (r: string)
  {
    SpaceCaseBoundaries(ReplaceSeparators(packageId))
  }

  /** `formatProcessName`: a package id as a title of capitalised words */
  function FormatProcessName(packageId: string): (r: string)
    ensures Lower(r) == Lower(SpacedName(packageId))
  {
    LowerJoinCapitalized(Split(SpacedName(packageId), ' '), ' ');
    JoinSplit(SpacedName(packageId), ' ');
    Join(CapitalizeAll(Split(SpacedName(packageId), ' ')), ' ')
  }

  /** Two characters with the same lower-case form are equal when one is not a letter */
  lemma SameLowerNonLetter(a: char, b: char)
    requires ToLower(a) == ToLower(b) && !IsUpper(b) && !IsLower(b)
    ensures a == b
  {
  }

  /** Lower-casing ignores capitalisation of the words of a join */
  lemma {:induction false} LowerJoinCapitalized(ws: seq<string>, d: char)
    requires !IsUpper(d)
    ensures Lower(Join(CapitalizeAll(ws), d)) == Lower(Join(ws, d))
  {
    if |ws| == 1 {
      CapitalizeSpec(ws[0]);
    } else if |ws| > 1 {
      var cs := CapitalizeAll(ws);
      assert cs[1..] == CapitalizeAll(ws[1..]);
      LowerJoinCapitalized(ws[1..], d);
      CapitalizeSpec(ws[0]);
      LowerAppend(cs[0] + [d], Join(cs[1..], d));
      LowerAppend(cs[0], [d]);
      LowerAppend(ws[0] + [d], Join(ws[1..], d));
      LowerAppend(ws[0], [d]);
    }
  }

  /** The title holds no '.' or '_' */
  lemma FormatProcessNameNoSeparators(packageId: string)
    ensures '.' !in FormatProcessName(packageId) && '_' !in FormatProcessName(packageId)
  {
    var r := FormatProcessName(packageId);
    var spaced := SpacedName(packageId);
    SpaceCaseBoundariesChars(ReplaceSeparators(packageId));
    forall i | 0 <= i < |r|
      ensures r[i] != '.' && r[i] != '_'
    {
      assert Lower(r)[i] == Lower(spaced)[i];
      assert spaced[i] in spaced;
      if r[i] == '.' || r[i] == '_' {
        SameLowerNonLetter(spaced[i], r[i]);
      }
    }
  }

  /** Splitting the title at its spaces gives the capitalised words of the spaced name */
  lemma FormatProcessNameWords(packageId: string)
    ensures var words := Split(FormatProcessName(packageId), ' ');
      && words == CapitalizeAll(Split(SpacedName(packageId), ' '))
      && forall i :: 0 <= i < |words| ==> Capitalized(words[i])
  {
    var ws := Split(SpacedName(packageId), ' ');
    var cs := CapitalizeAll(ws);
    forall i | 0 <= i < |cs|
      ensures ' ' !in cs[i] && Capitalized(cs[i])
    {
      CapitalizeSpec(ws[i]);
      CapitalizeNoSpace(ws[i]);
    }
    SplitJoin(cs, ' ');
  }

  // ---------------------------------------------------------------------
  // getEmbedTaskUrl
  // ---------------------------------------------------------------------

  /** The two parts of a parsed URL the rewrite uses */
  datatype Url = Url(origin: string, pathname: string)

  /** `parts[i]` in a template literal: "undefined" past the end */
  function PartAt(parts: seq<string>, i: nat): (r: string)
  {
    if i < |parts| then parts[i] else "undefined"
  }

  /** `getEmbedTaskUrl`; `parsed` is the outcome of `new URL(taskUrl)`, None when it throws */
  function EmbedTaskUrl(taskUrl: string, parsed: Option<Url>): (r: string)
    ensures parsed.None? ==> r == taskUrl
  {
    match parsed
    case None => taskUrl
    case Some(url) =>
      var parts := Split(url.pathname, '/');
      url.origin + "/embed_/" + PartAt(parts, 1) + "/" + PartAt(parts, 2)
        + "/actions_/current-task/tasks/" + parts[|parts| - 1]
  }

  /** A task path /org/tenant/.../id becomes the embed URL of the same organisation,
      tenant and task */
  lemma EmbedTaskUrlPath(taskUrl: string, origin: string, org: string, tenant: string,
                         middle: seq<string>, id: string)
    requires '/' !in org && '/' !in tenant && '/' !in id && NoneContains(middle, '/')
    ensures var path := Join(["", org, tenant] + middle + [id], '/');
      EmbedTaskUrl(taskUrl, Some(Url(origin, path)))
      == origin + "/embed_/" + org + "/" + tenant + "/actions_/current-task/tasks/" + id
  {
    var segments := ["", org, tenant] + middle + [id];
    assert forall i :: 0 <= i < |segments| ==> '/' !in segments[i] by {
      forall i | 0 <= i < |segments|
        ensures '/' !in segments[i]
      {
        if 3 <= i < |segments| - 1 {
          assert segments[i] == middle[i - 3];
        }
      }
    }
    SplitJoin(segments, '/');
  }
}
