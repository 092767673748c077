/**
 * The display helpers of the dashboard: the urgency label of an alert, the
 * "... ago" label of a timestamp, and the unused bullet-list extractor for
 * free-form AI analysis text.
 */
module Format {
  import opened Text

  /**
   * `r` is a decimal amount, with no leading zero, followed by `suffix`, and
   * that amount is `x` divided by `unit`, rounded down.
   */
  ghost predicate ShowsFloor(r: string, suffix: string, x: int, unit: nat)
  {
    && |r| > |suffix| && r[|r| - |suffix|..] == suffix
    && IsDigits(r[..|r| - |suffix|])
    && (r[0] != '0' || |r| == |suffix| + 1)
    && var q := ParseNat(r[..|r| - |suffix|]); q * unit <= x < (q + 1) * unit
  }

  lemma FloorBounds(x: nat, unit: nat)
    requires unit > 0
    ensures (x / unit) * unit <= x < (x / unit + 1) * unit
  {
    var q, m := x / unit, x % unit;
    assert x == q * unit + m && 0 <= m < unit;
    assert (q + 1) * unit == q * unit + unit;
  }

  lemma FloorShown(x: nat, unit: nat, suffix: string)
    requires unit > 0
    ensures ShowsFloor(NatToString(x / unit) + suffix, suffix, x, unit)
  {
    var r := NatToString(x / unit) + suffix;
    assert r[..|r| - |suffix|] == NatToString(x / unit);
    assert r[|r| - |suffix|..] == suffix;
    ParseNatToString(x / unit);
    FloorBounds(x, unit);
  }

  /**
   * The urgency label of an alert: whole minutes below an hour, whole hours
   * below a day, whole days from then on.
   */
  function FormatUrgency(urgency: nat): (r: string)
    ensures urgency < 3600 ==> ShowsFloor(r, "m", urgency, 60)
    ensures 3600 <= urgency < 86400 ==> ShowsFloor(r, "h", urgency, 3600)
    ensures 86400 <= urgency ==> ShowsFloor(r, "d", urgency, 86400)
  {
    if urgency < 3600 then
      FloorShown(urgency, 60, "m");
      NatToString(urgency / 60) + "m"
    else if urgency < 86400 then
      FloorShown(urgency, 3600, "h");
      NatToString(urgency / 3600) + "h"
    else
      FloorShown(urgency, 86400, "d");
      NatToString(urgency / 86400) + "d"
  }

  /** `str` of the amounts the label lemmas below read. */
  lemma Numerals()
    ensures NatToString(0) == "0" && NatToString(1) == "1" && NatToString(4) == "4"
    ensures NatToString(15) == "15" && NatToString(23) == "23" && NatToString(60) == "60"
  {
    assert NatToString(15) == NatToString(1) + [DigitChar(5)];
    assert NatToString(23) == NatToString(2) + [DigitChar(3)];
    assert NatToString(60) == NatToString(6) + [DigitChar(0)];
  }

  /** The labels the boundary lemmas below read, spelled out. */
  lemma Labels()
    ensures NatToString(1) + " minutes ago" == "1 minutes ago"
    ensures NatToString(60) + " minutes ago" == "60 minutes ago"
    ensures NatToString(1) + " hours ago" == "1 hours ago"
    ensures NatToString(23) + " hours ago" == "23 hours ago"
    ensures NatToString(1) + " days ago" == "1 days ago"
  {
    Numerals();
  }

  /** The urgencies of the risk table read 1m, 15m, 1h, 4h and 1d. */
  lemma FormatUrgencyExamples()
    ensures FormatUrgency(59) == "0m" && FormatUrgency(60) == "1m" && FormatUrgency(900) == "15m"
    ensures FormatUrgency(3600) == "1h" && FormatUrgency(14400) == "4h" && FormatUrgency(86399) == "23h"
    ensures FormatUrgency(86400) == "1d"
  {
    Numerals();
    assert 900 / 60 == 15 && 14400 / 3600 == 4 && 86399 / 3600 == 23;
  }

  /**
   * The age label of a timestamp `elapsed` seconds old. Like Python's
   * `timedelta`, the age is split into whole days, rounded down, and the
   * seconds left over, in [0, 86400); the label is chosen from those two.
   */
  function TimeAgo(elapsed: int): (r: string)
    ensures 86400 <= elapsed ==> ShowsFloor(r, " days ago", elapsed, 86400)
    ensures 3600 < elapsed < 86400 ==> ShowsFloor(r, " hours ago", elapsed, 3600)
    ensures 60 < elapsed <= 3600 ==> ShowsFloor(r, " minutes ago", elapsed, 60)
    ensures 0 <= elapsed <= 60 ==> r == "Just now"
  {
    var days := elapsed / 86400;
    var secs := elapsed % 86400;
    if days > 0 then
      FloorShown(elapsed, 86400, " days ago");
      NatToString(days) + " days ago"
    else if secs > 3600 then
      FloorShown(secs, 3600, " hours ago");
      NatToString(secs / 3600) + " hours ago"
    else if secs > 60 then
      FloorShown(secs, 60, " minutes ago");
      NatToString(secs / 60) + " minutes ago"
    else
      "Just now"
  }

  /** The label of an age under a day, in the words of the body. */
  lemma TimeAgoUnderADay(elapsed: nat)
    requires elapsed < 86400
    ensures 3600 < elapsed ==> TimeAgo(elapsed) == NatToString(elapsed / 3600) + " hours ago"
    ensures 60 < elapsed <= 3600 ==> TimeAgo(elapsed) == NatToString(elapsed / 60) + " minutes ago"
    ensures elapsed <= 60 ==> TimeAgo(elapsed) == "Just now"
  {
    assert elapsed / 86400 == 0 && elapsed % 86400 == elapsed;
  }

  /** Every age in the last hour of the first day reads "23 hours ago". */
  lemma TimeAgoLastHourOfDay(elapsed: int)
    requires 82800 < elapsed < 86400
    ensures TimeAgo(elapsed) == "23 hours ago"
  {
    TimeAgoUnderADay(elapsed);
    assert elapsed / 3600 == 23;
    Labels();
  }

  /** Every age in the second day reads "1 days ago". */
  lemma TimeAgoSecondDay(elapsed: int)
    requires 86400 <= elapsed < 172800
    ensures TimeAgo(elapsed) == "1 days ago"
  {
    assert elapsed / 86400 == 1;
    Labels();
  }

  /**
   * The boundaries are strict: a full minute still reads "Just now", a full
   * hour still reads in minutes, and a day less one second still reads in
   * hours.
   */
  lemma TimeAgoMinuteBoundary()
    ensures TimeAgo(60) == "Just now"
    ensures TimeAgo(61) == "1 minutes ago"
  {
    Labels();
    TimeAgoUnderADay(60);
    TimeAgoUnderADay(61);
  }

  lemma TimeAgoHourBoundary()
    ensures TimeAgo(3600) == "60 minutes ago"
    ensures TimeAgo(3601) == "1 hours ago"
  {
    Labels();
    TimeAgoUnderADay(3600);
    TimeAgoUnderADay(3601);
  }

  lemma TimeAgoDayBoundary()
    ensures TimeAgo(86399) == "23 hours ago"
    ensures TimeAgo(86400) == "1 days ago"
  {
    TimeAgoLastHourOfDay(86399);
    TimeAgoSecondDay(86400);
  }

  /**
   * A timestamp in the future has a negative day count and is labelled by
   * its leftover seconds alone: one to 3599 seconds ahead reads "23 hours ago".
   */
  lemma TimeAgoFuture(elapsed: int)
    requires elapsed < 0
    ensures TimeAgo(elapsed) == TimeAgo(elapsed % 86400)
    ensures -3600 < elapsed ==> TimeAgo(elapsed) == "23 hours ago"
  {
    var secs := elapsed % 86400;
    assert elapsed / 86400 < 0;
    assert secs / 86400 == 0 && secs % 86400 == secs;
    if -3600 < elapsed {
      assert secs == 86400 + elapsed;
      TimeAgoLastHourOfDay(secs);
    }
  }

  /** The characters `extract_todos_from_ai` cuts from both ends of a line first. */
  const BulletChars: set<char> := {
    '-', '\U{2022}', '*', ' ', '1', '2', '3', '4', '5', '6', '7', '8', '9', '0', '.'
  }

  /** A line of analysis text as an action item: bullet and numbering characters, then whitespace, cut from both ends. */
  function CleanItem(line: string): (item: string)
    ensures item == [] || (item[0] !in Whitespace && item[|item| - 1] !in Whitespace)
  {
    Strip(StripChars(line, BulletChars))
  }

  /** The action items of some lines of analysis text: the non-empty cleaned lines, in order. */
  function ActionItems(lines: seq<string>): (items: seq<string>)
    ensures |items| <= |lines|
    ensures forall k :: 0 <= k < |items| ==> items[k] != [] && items[k][0] !in Whitespace
    decreases |lines|
  {
    if |lines| == 0 then []
    else
      var item := CleanItem(lines[|lines| - 1]);
      ActionItems(lines[..|lines| - 1]) + (if item != [] then [item] else [])
  }

  /** Every item comes from a line, and every line that cleans to something non-empty gives its item. */
  lemma {:induction false} ActionItemsExact(lines: seq<string>)
    ensures forall x :: x in ActionItems(lines) ==> exists l :: l in lines && CleanItem(l) == x
    ensures forall l :: l in lines && CleanItem(l) != [] ==> CleanItem(l) in ActionItems(lines)
    decreases |lines|
  {
    if |lines| > 0 {
      var init := lines[..|lines| - 1];
      ActionItemsExact(init);
      assert lines == init + [lines[|lines| - 1]];
      forall x | x in ActionItems(lines) ensures exists l :: l in lines && CleanItem(l) == x {
        if x in ActionItems(init) {
          var l :| l in init && CleanItem(l) == x;
          assert l in lines;
        } else {
          assert CleanItem(lines[|lines| - 1]) == x;
        }
      }
    }
  }

  /** `extract_todos_from_ai`: collects the action items of the lines of some analysis text. */
  method ExtractTodosFromAi(lines: seq<string>) returns (todos: seq<string>)
    ensures todos == ActionItems(lines)
  {
    todos := [];
    for i := 0 to |lines|
      invariant todos == ActionItems(lines[..i])
    {
      var item := CleanItem(lines[i]);
      assert lines[..i + 1][..i] == lines[..i];
      assert ActionItems(lines[..i + 1]) == ActionItems(lines[..i]) + (if item != [] then [item] else []);
      if item != [] {
        todos := todos + [item];
      }
    }
    assert lines[..|lines|] == lines;
  }
}
