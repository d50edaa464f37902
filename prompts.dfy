/**
 * The acceptance rules inside main.py's interactive prompts. Standard input is
 * the sequence of lines the user types, read from position `pos` on; running
 * out of lines (Python's EOFError) gives None. A successful read reports what
 * was obtained and the position of the first line not yet read.
 */
module Prompts {
  import opened Wrappers
  import opened Text
  import opened Fetching

  /** A value read from the input and the position of the next unread line. */
  datatype Read<T> = Read(value: T, next: nat)

  // ---------------------------------------------------------------------
  // get_target_playlists

  /** `re.match(r"[0-9,]+$", line)`: non-empty, ASCII digits and commas only. */
  predicate MatchesSelectionPattern(line: string)
  {
    |line| > 0 && forall i :: 0 <= i < |line| ==> IsAsciiDigit(line[i]) || line[i] == ','
  }

  /** `list(filter(None, line.split(',')))` for a line that matched the pattern:
      the non-empty comma-separated fields, each a digit string. */
  function SelectionFields(line: string): (fields: seq<string>)
    requires MatchesSelectionPattern(line)
    ensures forall k :: 0 <= k < |fields| ==> |fields[k]| > 0 && AllDigits(fields[k])
  {
    var pieces := Split(line, ',');
    var fields := NonEmpty(pieces);
    assert forall k :: 0 <= k < |fields| ==> |fields[k]| > 0 && AllDigits(fields[k]) by {
      forall k | 0 <= k < |fields|
        ensures |fields[k]| > 0 && AllDigits(fields[k])
      {
        var j :| 0 <= j < |pieces| && pieces[j] == fields[k];
        forall i | 0 <= i < |fields[k]|
          ensures IsAsciiDigit(fields[k][i])
        {
          assert pieces[j][i] in line && pieces[j][i] != ',';
        }
      }
    }
    fields
  }

  /** The fields are the non-empty comma-separated pieces at their positions,
      in the order typed, a repeated one kept each time it is typed. */
  lemma SelectionFieldsInOrder(line: string)
    requires MatchesSelectionPattern(line)
    ensures var pieces, fields := Split(line, ','), SelectionFields(line);
      |fields| == |NonEmptyPositions(pieces)|
      && forall k :: 0 <= k < |fields| ==> fields[k] == pieces[NonEmptyPositions(pieces)[k]]
  {
    NonEmptyIsSubsequence(Split(line, ','));
  }

  /** `all(int(item) <= len(all_playlists) - 1 for item in ...)`, with
      `count` standing for `len(all_playlists)`. */
  predicate AllAtMost(fields: seq<string>, count: nat)
    requires forall k :: 0 <= k < |fields| ==> AllDigits(fields[k])
  {
    forall k :: 0 <= k < |fields| ==> Decimal(fields[k]) <= count - 1
  }

  /** The selection line is accepted: it matches the pattern and every field
      names a playlist index no greater than `count - 1`. */
  predicate SelectionAccepted(line: string, count: nat)
  {
    MatchesSelectionPattern(line) && AllAtMost(SelectionFields(line), count)
  }

  /** Every field is a digit string whose value indexes a playlist. */
  predicate NamesPlaylists(fields: seq<string>, count: nat)
  {
    forall k {:trigger fields[k]} :: 0 <= k < |fields| ==> IsDigits(fields[k]) && Decimal(fields[k]) < count
  }

  /** The ids of the playlists the fields name, in the order typed. */
  function IdsOf(fields: seq<string>, allPlaylists: seq<Playlist>): (ids: seq<string>)
    requires NamesPlaylists(fields, |allPlaylists|)
  {
    seq(|fields|, k requires 0 <= k < |fields| => allPlaylists[Decimal(fields[k])].id)
  }

  lemma AcceptedNamesPlaylists(line: string, count: nat)
    requires SelectionAccepted(line, count)
    ensures NamesPlaylists(SelectionFields(line), count)
  {
  }

  /** Acceptance in terms of the raw comma-separated pieces: a line matching
      the pattern is accepted exactly when every non-empty piece is at most
      `count - 1`; empty pieces (from doubled, leading or trailing commas) are
      ignored. */
  lemma SelectionAcceptedPieces(line: string, count: nat)
    requires MatchesSelectionPattern(line)
    ensures forall k :: 0 <= k < |Split(line, ',')| ==> AllDigits(Split(line, ',')[k])
    ensures SelectionAccepted(line, count) <==>
      forall k :: 0 <= k < |Split(line, ',')| && Split(line, ',')[k] != [] ==>
        Decimal(Split(line, ',')[k]) <= count - 1
  {
    var pieces := Split(line, ',');
    var fields := SelectionFields(line);
    forall k | 0 <= k < |pieces|
      ensures AllDigits(pieces[k])
    {
      forall i | 0 <= i < |pieces[k]|
        ensures IsAsciiDigit(pieces[k][i])
      {
        assert pieces[k][i] in line && pieces[k][i] != ',';
      }
    }
    if SelectionAccepted(line, count) {
      forall k | 0 <= k < |pieces| && pieces[k] != []
        ensures Decimal(pieces[k]) <= count - 1
      {
        assert pieces[k] in pieces;
        var j :| 0 <= j < |fields| && fields[j] == pieces[k];
      }
    } else {
      var j :| 0 <= j < |fields| && !(Decimal(fields[j]) <= count - 1);
      var k :| 0 <= k < |pieces| && pieces[k] == fields[j];
    }
  }

  /** A line of commas only is accepted, whatever the number of playlists,
      and selects nothing. */
  lemma OnlyCommasSelectNothing(line: string, count: nat)
    requires |line| > 0 && forall i :: 0 <= i < |line| ==> line[i] == ','
    ensures SelectionAccepted(line, count)
    ensures SelectionFields(line) == []
  {
    SplitOfSeparators(line, ',');
    NonEmptyOfEmpties(Split(line, ','));
  }

  /** An accepted line that selects anything needs at least one playlist. */
  lemma SelectingNeedsPlaylists(line: string, count: nat)
    requires SelectionAccepted(line, count)
    ensures |SelectionFields(line)| > 0 ==> count >= 1
  {
    var fields := SelectionFields(line);
    if |fields| > 0 {
      assert Decimal(fields[0]) <= count - 1;
    }
  }

  /** With no playlists at all, only a line of commas is accepted. */
  lemma NoPlaylistsAcceptsOnlyCommas(line: string)
    requires SelectionAccepted(line, 0)
    ensures forall i :: 0 <= i < |line| ==> line[i] == ','
  {
    var fields := SelectionFields(line);
    var pieces := Split(line, ',');
    SelectingNeedsPlaylists(line, 0);
    forall k | 0 <= k < |pieces|
      ensures pieces[k] == []
    {
      assert pieces[k] in pieces;
    }
    EmptyPiecesOnlySeparators(line, ',');
  }

  /** The first accepted selection line at or after `pos`, and its fields. */
  function FirstSelection(lines: seq<string>, pos: nat, count: nat): (r: Option<Read<seq<string>>>)
    ensures r.None? <==> forall i :: pos <= i < |lines| ==> !SelectionAccepted(lines[i], count)
    ensures r.Some? ==>
      pos < r.value.next <= |lines|
      && SelectionAccepted(lines[r.value.next - 1], count)
      && r.value.value == SelectionFields(lines[r.value.next - 1])
      && forall i :: pos <= i < r.value.next - 1 ==> !SelectionAccepted(lines[i], count)
    decreases |lines| - pos
  {
    if pos >= |lines| then None
    else if SelectionAccepted(lines[pos], count) then Some(Read(SelectionFields(lines[pos]), pos + 1))
    else FirstSelection(lines, pos + 1, count)
  }

  /** The inner prompt loop of get_target_playlists: read lines until one is accepted. */
  method ReadSelection(lines: seq<string>, pos: nat, count: nat) returns (r: Option<Read<seq<string>>>)
    ensures r == FirstSelection(lines, pos, count)
  {
    var next := pos;
    while next < |lines|
      invariant pos <= next
      invariant FirstSelection(lines, pos, count) == FirstSelection(lines, next, count)
      decreases |lines| - next
    {
      var targetedPlaylists := lines[next];
      if MatchesSelectionPattern(targetedPlaylists) {
        var fields := SelectionFields(targetedPlaylists);
        if AllAtMost(fields, count) {
          assert SelectionAccepted(targetedPlaylists, count);
          return Some(Read(fields, next + 1));
        }
      }
      assert !SelectionAccepted(targetedPlaylists, count);
      next := next + 1;
    }
    return None;
  }

  /** Lines 160-165: map each selected field to its playlist's id. */
  method ChosenIds(fields: seq<string>, allPlaylists: seq<Playlist>) returns (finalPlaylists: seq<string>)
    requires NamesPlaylists(fields, |allPlaylists|)
    ensures |finalPlaylists| == |fields|
    ensures forall k :: 0 <= k < |fields| ==> finalPlaylists[k] == allPlaylists[Decimal(fields[k])].id
    ensures finalPlaylists == IdsOf(fields, allPlaylists)
  {
    finalPlaylists := [];
    for k := 0 to |fields|
      invariant |finalPlaylists| == k
      invariant forall j :: 0 <= j < k ==> finalPlaylists[j] == allPlaylists[Decimal(fields[j])].id
    {
      finalPlaylists := finalPlaylists + [allPlaylists[Decimal(fields[k])].id];
    }
  }

  // ---------------------------------------------------------------------
  // confirm_yesno

  /** An answer that lower-cases to exactly "y". */
  predicate IsYes(line: string)
  {
    LowerAscii(line) == "y"
  }

  /** An answer confirm_yesno accepts: it lower-cases to exactly "y" or "n". */
  predicate IsAnswer(line: string)
  {
    IsYes(line) || LowerAscii(line) == "n"
  }

  /** The first accepted answer at or after `pos`: true for yes, false for no. */
  function FirstAnswer(lines: seq<string>, pos: nat): (r: Option<Read<bool>>)
    ensures r.None? <==> forall i :: pos <= i < |lines| ==> !IsAnswer(lines[i])
    ensures r.Some? ==>
      pos < r.value.next <= |lines|
      && IsAnswer(lines[r.value.next - 1])
      && (r.value.value <==> IsYes(lines[r.value.next - 1]))
      && forall i :: pos <= i < r.value.next - 1 ==> !IsAnswer(lines[i])
    decreases |lines| - pos
  {
    if pos >= |lines| then None
    else if IsAnswer(lines[pos]) then
      Some(Read(IsYes(lines[pos]), pos + 1))
    else FirstAnswer(lines, pos + 1)
  }

  /** confirm_yesno: ask until the answer lower-cases to "y" or "n". */
  method ConfirmYesNo(lines: seq<string>, pos: nat) returns (r: Option<Read<bool>>)
    ensures r == FirstAnswer(lines, pos)
  {
    var next := pos;
    while next < |lines|
      invariant pos <= next
      invariant FirstAnswer(lines, pos) == FirstAnswer(lines, next)
      decreases |lines| - next
    {
      var confirmation := LowerAscii(lines[next]);
      if confirmation == "y" {
        return Some(Read(true, next + 1));
      } else if confirmation == "n" {
        return Some(Read(false, next + 1));
      }
      assert !IsAnswer(lines[next]);
      next := next + 1;
    }
    return None;
  }

  /** get_target_playlists as a whole: select, then ask whether to choose
      again; the selection kept is the one answered "no". */
  function TargetFrom(lines: seq<string>, pos: nat, allPlaylists: seq<Playlist>): Option<Read<seq<string>>>
    decreases |lines| - pos
  {
    match FirstSelection(lines, pos, |allPlaylists|)
    case None => None
    case Some(sel) =>
      match FirstAnswer(lines, sel.next)
      case None => None
      case Some(again) =>
        if again.value then TargetFrom(lines, again.next, allPlaylists)
        else Some(Read(IdsOf(sel.value, allPlaylists), again.next))
  }

  /** `p` is reached from `pos` by zero or more whole rounds, each an accepted
      selection followed by a yes to "choose again?". */
  predicate AgainRounds(lines: seq<string>, pos: nat, p: nat, count: nat)
    decreases p - pos
  {
    pos == p
    || (FirstSelection(lines, pos, count).Some?
        && var sel := FirstSelection(lines, pos, count).value;
           FirstAnswer(lines, sel.next).Some?
           && var again := FirstAnswer(lines, sel.next).value;
              again.value && pos < again.next <= p && AgainRounds(lines, again.next, p, count))
  }

  /** The round starting at `p` ends the prompt with `res`: the ids of the first
      accepted line from `p`, followed by a no to "choose again?". */
  predicate FinalRound(lines: seq<string>, p: nat, allPlaylists: seq<Playlist>, res: Read<seq<string>>)
  {
    FirstSelection(lines, p, |allPlaylists|).Some?
    && var sel := FirstSelection(lines, p, |allPlaylists|).value;
       NamesPlaylists(sel.value, |allPlaylists|)
       && res.value == IdsOf(sel.value, allPlaylists)
       && FirstAnswer(lines, sel.next) == Some(Read(false, res.next))
  }

  /** The round starting at `p` runs out of input: no accepted line is left,
      or no yes/no answer follows the accepted one. */
  predicate UnfinishedRound(lines: seq<string>, p: nat, count: nat)
  {
    FirstSelection(lines, p, count).None?
    || FirstAnswer(lines, FirstSelection(lines, p, count).value.next).None?
  }

  lemma AgainRoundsForward(lines: seq<string>, pos: nat, p: nat, count: nat)
    requires AgainRounds(lines, pos, p, count)
    ensures pos <= p
  {
  }

  /** The prompt returns `res` exactly when, after some rounds answered yes, a
      round answered no selects `res`; the selections of earlier rounds are
      discarded. */
  lemma {:induction false} TargetFromSome(lines: seq<string>, pos: nat, allPlaylists: seq<Playlist>,
                                          res: Read<seq<string>>)
    ensures TargetFrom(lines, pos, allPlaylists) == Some(res) <==>
      exists p :: AgainRounds(lines, pos, p, |allPlaylists|) && FinalRound(lines, p, allPlaylists, res)
    decreases |lines| - pos
  {
    var count := |allPlaylists|;
    match FirstSelection(lines, pos, count)
    case None =>
      forall p | AgainRounds(lines, pos, p, count)
        ensures !FinalRound(lines, p, allPlaylists, res)
      {
        assert p == pos;
      }
    case Some(sel) =>
      match FirstAnswer(lines, sel.next)
      case None =>
        forall p | AgainRounds(lines, pos, p, count)
          ensures !FinalRound(lines, p, allPlaylists, res)
        {
          assert p == pos;
        }
      case Some(again) =>
        TargetFromRound(lines, pos, allPlaylists, sel, again);
        if again.value {
          TargetFromSome(lines, again.next, allPlaylists, res);
          if TargetFrom(lines, pos, allPlaylists) == Some(res) {
            var p :| AgainRounds(lines, again.next, p, count) && FinalRound(lines, p, allPlaylists, res);
            AgainRoundsForward(lines, again.next, p, count);
            assert AgainRounds(lines, pos, p, count);
          }
          forall p | AgainRounds(lines, pos, p, count) && FinalRound(lines, p, allPlaylists, res)
            ensures TargetFrom(lines, pos, allPlaylists) == Some(res)
          {
            assert p != pos;
            assert AgainRounds(lines, again.next, p, count);
          }
        } else {
          if TargetFrom(lines, pos, allPlaylists) == Some(res) {
            assert AgainRounds(lines, pos, pos, count) && FinalRound(lines, pos, allPlaylists, res);
          }
          forall p | AgainRounds(lines, pos, p, count)
            ensures p == pos
          {
          }
        }
  }

  /** The prompt runs out of input exactly when, after some rounds answered
      yes, a round finds no accepted line or no yes/no answer. */
  lemma {:induction false} TargetFromNone(lines: seq<string>, pos: nat, allPlaylists: seq<Playlist>)
    ensures TargetFrom(lines, pos, allPlaylists).None? <==>
      exists p :: AgainRounds(lines, pos, p, |allPlaylists|) && UnfinishedRound(lines, p, |allPlaylists|)
    decreases |lines| - pos
  {
    var count := |allPlaylists|;
    match FirstSelection(lines, pos, count)
    case None =>
      assert AgainRounds(lines, pos, pos, count) && UnfinishedRound(lines, pos, count);
    case Some(sel) =>
      match FirstAnswer(lines, sel.next)
      case None =>
        assert AgainRounds(lines, pos, pos, count) && UnfinishedRound(lines, pos, count);
      case Some(again) =>
        TargetFromRound(lines, pos, allPlaylists, sel, again);
        if again.value {
          TargetFromNone(lines, again.next, allPlaylists);
          if TargetFrom(lines, pos, allPlaylists).None? {
            var p :| AgainRounds(lines, again.next, p, count) && UnfinishedRound(lines, p, count);
            AgainRoundsForward(lines, again.next, p, count);
            assert AgainRounds(lines, pos, p, count);
          }
          forall p | AgainRounds(lines, pos, p, count) && UnfinishedRound(lines, p, count)
            ensures TargetFrom(lines, pos, allPlaylists).None?
          {
            assert p != pos;
            assert AgainRounds(lines, again.next, p, count);
          }
        } else {
          forall p | AgainRounds(lines, pos, p, count)
            ensures p == pos && !UnfinishedRound(lines, p, count)
          {
          }
        }
  }

  /** One round of the outer loop: a selection followed by the answer to
      "choose again?" either ends the prompt or starts it over. */
  lemma TargetFromRound(lines: seq<string>, pos: nat, allPlaylists: seq<Playlist>,
                        sel: Read<seq<string>>, again: Read<bool>)
    requires FirstSelection(lines, pos, |allPlaylists|) == Some(sel)
    requires FirstAnswer(lines, sel.next) == Some(again)
    ensures pos < again.next
    ensures NamesPlaylists(sel.value, |allPlaylists|)
    ensures TargetFrom(lines, pos, allPlaylists) ==
      if again.value then TargetFrom(lines, again.next, allPlaylists)
      else Some(Read(IdsOf(sel.value, allPlaylists), again.next))
  {
    AcceptedNamesPlaylists(lines[sel.next - 1], |allPlaylists|);
  }

  /** get_target_playlists: the outer loop around selection and confirmation. */
  method GetTargetPlaylists(lines: seq<string>, pos: nat, allPlaylists: seq<Playlist>)
    returns (r: Option<Read<seq<string>>>)
    ensures r == TargetFrom(lines, pos, allPlaylists)
  {
    var start := pos;
    while true
      invariant TargetFrom(lines, pos, allPlaylists) == TargetFrom(lines, start, allPlaylists)
      decreases |lines| - start
    {
      var selection := ReadSelection(lines, start, |allPlaylists|);
      if selection.None? {
        return None;
      }
      var sel := selection.value;
      AcceptedNamesPlaylists(lines[sel.next - 1], |allPlaylists|);
      var finalPlaylists := ChosenIds(sel.value, allPlaylists);
      var again := ConfirmYesNo(lines, sel.next);
      if again.None? {
        return None;
      }
      TargetFromRound(lines, start, allPlaylists, sel, again.value);
      if !again.value.value {
        return Some(Read(finalPlaylists, again.value.next));
      }
      start := again.value.next;
    }
  }

  // ---------------------------------------------------------------------
  // get_final_playlist

  /** Where the consolidated tracks go: an existing playlist, or a new one
      to be created under the given name. */
  datatype Destination = Existing(id: string) | CreateNew(name: string)

  /** A destination answer the prompt turns down: blank, or neither "new" nor
      a digit string naming an index no greater than `count - 1`. */
  predicate DestinationRejected(line: string, count: nat)
  {
    IsBlank(line) || (line != "new" && !(IsDigits(line) && Decimal(line) <= count - 1))
  }

  /** The first non-blank line at or after `pos`: the name for a new playlist. */
  function FirstName(lines: seq<string>, pos: nat): (r: Option<Read<string>>)
    ensures r.None? <==> forall i :: pos <= i < |lines| ==> IsBlank(lines[i])
    ensures r.Some? ==>
      pos < r.value.next <= |lines|
      && r.value.value == lines[r.value.next - 1] && !IsBlank(r.value.value)
      && forall i :: pos <= i < r.value.next - 1 ==> IsBlank(lines[i])
    decreases |lines| - pos
  {
    if pos >= |lines| then None
    else if !IsBlank(lines[pos]) then Some(Read(lines[pos], pos + 1))
    else FirstName(lines, pos + 1)
  }

  /** The destination chosen by the first answer at or after `pos` that is not
      turned down. */
  function FirstDestination(lines: seq<string>, pos: nat, allPlaylists: seq<Playlist>): Option<Read<Destination>>
    decreases |lines| - pos
  {
    if pos >= |lines| then None
    else
      var line := lines[pos];
      if IsBlank(line) then FirstDestination(lines, pos + 1, allPlaylists)
      else if line == "new" then NewDestination(lines, pos + 1)
      else if IsDigits(line) && Decimal(line) <= |allPlaylists| - 1 then
        Some(Read(Existing(allPlaylists[Decimal(line)].id), pos + 1))
      else FirstDestination(lines, pos + 1, allPlaylists)
  }

  /** The destination for an answer of "new": a new playlist under the first
      non-blank name at or after `pos`. */
  function NewDestination(lines: seq<string>, pos: nat): Option<Read<Destination>>
  {
    match FirstName(lines, pos)
    case None => None
    case Some(name) => Some(Read(CreateNew(name.value), name.next))
  }

  /** The name prompt of get_final_playlist: read lines until one is not blank. */
  method ReadPlaylistName(lines: seq<string>, pos: nat) returns (r: Option<Read<string>>)
    ensures r == FirstName(lines, pos)
  {
    var next := pos;
    while next < |lines|
      invariant pos <= next
      invariant FirstName(lines, pos) == FirstName(lines, next)
      decreases |lines| - next
    {
      var targetedPlaylist := lines[next];
      next := next + 1;
      if !IsBlank(targetedPlaylist) {
        return Some(Read(targetedPlaylist, next));
      }
    }
    return None;
  }

  /** A destination comes from the first answer that is not turned down: a
      digit string selects that playlist's id, and "new" a new playlist named
      by the first non-blank line after it. */
  lemma {:induction false} FirstDestinationSome(lines: seq<string>, pos: nat, allPlaylists: seq<Playlist>)
    requires FirstDestination(lines, pos, allPlaylists).Some?
    ensures var r := FirstDestination(lines, pos, allPlaylists).value;
      r.next <= |lines|
      && (exists k :: pos <= k < r.next
            && (forall i :: pos <= i < k ==> DestinationRejected(lines[i], |allPlaylists|))
            && !DestinationRejected(lines[k], |allPlaylists|)
            && match r.value
               case Existing(id) =>
                 IsDigits(lines[k]) && Decimal(lines[k]) < |allPlaylists|
                 && id == allPlaylists[Decimal(lines[k])].id && r.next == k + 1
               case CreateNew(name) =>
                 lines[k] == "new" && FirstName(lines, k + 1) == Some(Read(name, r.next)))
    decreases |lines| - pos
  {
    var count := |allPlaylists|;
    var r := FirstDestination(lines, pos, allPlaylists).value;
    var line := lines[pos];
    if DestinationRejected(line, count) {
      assert FirstDestination(lines, pos, allPlaylists) == FirstDestination(lines, pos + 1, allPlaylists);
      FirstDestinationSome(lines, pos + 1, allPlaylists);
      var k :| pos + 1 <= k < r.next
            && (forall i :: pos + 1 <= i < k ==> DestinationRejected(lines[i], count))
            && !DestinationRejected(lines[k], count)
            && match r.value
               case Existing(id) =>
                 IsDigits(lines[k]) && Decimal(lines[k]) < count
                 && id == allPlaylists[Decimal(lines[k])].id && r.next == k + 1
               case CreateNew(name) =>
                 lines[k] == "new" && FirstName(lines, k + 1) == Some(Read(name, r.next));
      assert forall i :: pos <= i < k ==> DestinationRejected(lines[i], count);
    } else if line == "new" {
      assert FirstDestination(lines, pos, allPlaylists) == NewDestination(lines, pos + 1);
      assert FirstName(lines, pos + 1) == Some(Read(r.value.name, r.next));
    } else {
      assert r == Read(Existing(allPlaylists[Decimal(line)].id), pos + 1);
    }
  }

  /** The destination prompt runs out of input exactly when every answer is
      turned down, or when "new" is answered and only blank names follow. */
  lemma {:induction false} FirstDestinationNone(lines: seq<string>, pos: nat, allPlaylists: seq<Playlist>)
    ensures FirstDestination(lines, pos, allPlaylists).None? <==>
      (forall i :: pos <= i < |lines| ==> DestinationRejected(lines[i], |allPlaylists|))
      || (exists k :: pos <= k < |lines| && lines[k] == "new" && FirstName(lines, k + 1).None?
                      && forall i :: pos <= i < k ==> DestinationRejected(lines[i], |allPlaylists|))
    decreases |lines| - pos
  {
    if pos < |lines| {
      var count := |allPlaylists|;
      var line := lines[pos];
      if DestinationRejected(line, count) {
        FirstDestinationNone(lines, pos + 1, allPlaylists);
        assert FirstDestination(lines, pos, allPlaylists) == FirstDestination(lines, pos + 1, allPlaylists);
        if exists k :: pos + 1 <= k < |lines| && lines[k] == "new" && FirstName(lines, k + 1).None?
                       && forall i :: pos + 1 <= i < k ==> DestinationRejected(lines[i], count) {
          var k :| pos + 1 <= k < |lines| && lines[k] == "new" && FirstName(lines, k + 1).None?
                   && forall i :: pos + 1 <= i < k ==> DestinationRejected(lines[i], count);
          assert forall i :: pos <= i < k ==> DestinationRejected(lines[i], count);
        }
      } else {
        assert !(forall i :: pos <= i < |lines| ==> DestinationRejected(lines[i], count));
        if line == "new" {
          assert FirstDestination(lines, pos, allPlaylists) == NewDestination(lines, pos + 1);
        } else {
          assert FirstDestination(lines, pos, allPlaylists).Some?;
        }
      }
    }
  }

  /** get_final_playlist: read answers until one names a playlist or asks for
      a new one; for "new", read names until one is not blank. The remote
      creation of the new playlist is not part of this model. */
  method GetFinalPlaylist(lines: seq<string>, pos: nat, allPlaylists: seq<Playlist>)
    returns (r: Option<Read<Destination>>)
    ensures r == FirstDestination(lines, pos, allPlaylists)
  {
    var next := pos;
    while next < |lines|
      invariant pos <= next
      invariant FirstDestination(lines, pos, allPlaylists) == FirstDestination(lines, next, allPlaylists)
      decreases |lines| - next
    {
      var targetedPlaylist := lines[next];
      next := next + 1;
      if IsBlank(targetedPlaylist) {
        // turned down: ask again
      } else if targetedPlaylist == "new" {
        assert FirstDestination(lines, pos, allPlaylists) == NewDestination(lines, next);
        var name := ReadPlaylistName(lines, next);
        if name.None? {
          return None;
        }
        return Some(Read(CreateNew(name.value.value), name.value.next));
      } else if IsDigits(targetedPlaylist) {
        if Decimal(targetedPlaylist) > |allPlaylists| - 1 {
          // out of range: ask again
        } else {
          return Some(Read(Existing(allPlaylists[Decimal(targetedPlaylist)].id), next));
        }
      }
    }
    return None;
  }

  // ---------------------------------------------------------------------
  // Worked inputs

  lemma SplitExample()
    ensures Split("1,,1,", ',') == ["1", "", "1", ""]
  {
    assert Split("", ',') == [""];
    assert ","[1..] == "" && Split(",", ',') == ["", ""];
    assert ["", ""][1..] == [""] && ['1'] + "" == "1";
    assert "1,"[1..] == "," && Split("1,", ',') == ["1", ""];
    assert ",1,"[1..] == "1," && Split(",1,", ',') == ["", "1", ""];
    assert ",,1,"[1..] == ",1," && Split(",,1,", ',') == ["", "", "1", ""];
    assert "1,,1,"[1..] == ",,1,";
    assert ["", "", "1", ""][1..] == ["", "1", ""];
  }

  lemma NonEmptyExample()
    ensures NonEmpty(["1", "", "1", ""]) == ["1", "1"]
  {
    var p1: seq<string>, p2: seq<string>, p3: seq<string> := ["1"], ["1", ""], ["1", "", "1"];
    assert p1[..0] == [] && NonEmpty(p1) == ["1"];
    assert p2[..1] == p1 && NonEmpty(p2) == ["1"];
    assert p3[..2] == p2 && NonEmpty(p3) == ["1", "1"];
    assert ["1", "", "1", ""][..3] == p3;
  }

  /** "1,,1," holds only digits and commas. */
  lemma SelectionPatternExample()
    ensures MatchesSelectionPattern("1,,1,")
  {
    var line := "1,,1,";
    assert forall i :: 0 <= i < |line| ==> line[i] == '1' || line[i] == ',';
  }

  /** Empty fields are skipped and repeated ones kept: "1,,1," is accepted
      with two playlists, and its fields are "1" twice. */
  lemma RepeatedIndexKept()
    ensures MatchesSelectionPattern("1,,1,")
    ensures SelectionFields("1,,1,") == ["1", "1"]
    ensures SelectionAccepted("1,,1,", 2)
  {
    SelectionPatternExample();
    SplitExample();
    NonEmptyExample();
    var fields := SelectionFields("1,,1,");
    assert fields == ["1", "1"];
    assert Decimal("1") == 1 by {
      assert "1"[..0] == [];
    }
    assert AllAtMost(fields, 2) by {
      forall k | 0 <= k < |fields|
        ensures Decimal(fields[k]) <= 1
      {
        assert fields[k] == "1";
      }
    }
  }

  /** Only the exact answer "new" asks for a new playlist; digits padded with
      spaces and blank answers are turned down. */
  lemma DestinationAnswers(count: nat)
    requires count >= 4
    ensures DestinationRejected("", count) && DestinationRejected("  ", count)
    ensures DestinationRejected(" 3", count) && DestinationRejected("new ", count)
    ensures !DestinationRejected("new", count) && !DestinationRejected("3", count)
  {
    assert Decimal("3") == 3 by {
      assert "3"[..0] == [];
    }
    assert !IsDigits(" 3") by {
      assert !IsAsciiDigit(" 3"[0]);
    }
    assert !IsDigits("new ") by {
      assert !IsAsciiDigit("new "[0]);
    }
    assert !IsBlank("new") by {
      assert !IsSpace("new"[0]);
    }
    assert !IsBlank(" 3") by {
      assert !IsSpace(" 3"[1]);
    }
    assert !IsBlank("new ") by {
      assert !IsSpace("new "[0]);
    }
    assert !IsBlank("3") by {
      assert !IsSpace("3"[0]);
    }
  }

  /** Earlier answers that are not y or n are skipped: "yes" is not an answer,
      "Y" is a yes. */
  lemma ConfirmSkipsOtherAnswers()
    ensures FirstAnswer(["yes", "Y", "n"], 0) == Some(Read(true, 2))
  {
    assert |LowerAscii("yes")| == 3;
    assert !IsAnswer("yes");
    LowerIsY("Y");
    assert IsYes("Y");
  }
}
