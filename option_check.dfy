/** Option-pair candidate matching (option_check.py,
    populate_similar_event_options). The similarity of two option names is an
    abstract score in [0, 1]; how it is computed is not modelled. */
module OptionCheck {

  /** A similarity ratio. */
  type Ratio = r: real | 0.0 <= r <= 1.0

  /** The score a pair of option names must reach. */
  const SimilarityThreshold: real := 0.1

  /** A row of the similar_events table: an event and the two bets it pairs. */
  datatype SimilarEvent = SimilarEvent(eventId: int, betId1: int, betId2: int)

  /** A row of the bet_choice table (the columns this code reads). */
  datatype BetChoice = BetChoice(optionId: int, betId: int, name: string)

  /** What `SELECT option_id, name FROM bet_choice WHERE bet_id = ...` yields per row. */
  datatype OptionEntry = OptionEntry(optionId: int, name: string)

  /** A row inserted into similar_event_options. */
  datatype SimilarOption = SimilarOption(
    eventId: int, optionId1: int, optionId2: int, optionName1: string, optionName2: string)

  /** The options of one bet, in table order. */
  function OptionsOf(choices: seq<BetChoice>, betId: int): (r: seq<OptionEntry>)
    ensures |r| <= |choices|
  {
    if choices == [] then []
    else
      var rest := OptionsOf(choices[..|choices| - 1], betId);
      var c := choices[|choices| - 1];
      if c.betId == betId then rest + [OptionEntry(c.optionId, c.name)] else rest
  }

  lemma {:induction false} OptionsOfMembers(choices: seq<BetChoice>, betId: int)
    ensures forall o :: o in OptionsOf(choices, betId) <==> BetChoice(o.optionId, betId, o.name) in choices
  {
    if choices != [] {
      var init := choices[..|choices| - 1];
      OptionsOfMembers(init, betId);
      assert choices == init + [choices[|choices| - 1]];
    }
  }

  function Row(eventId: int, o1: OptionEntry, o2: OptionEntry): SimilarOption
  {
    SimilarOption(eventId, o1.optionId, o2.optionId, o1.name, o2.name)
  }

  /** The rows the innermost loop emits for option `o1` after comparing it
      with the first j options of the other bet. */
  ghost function InnerRows(eventId: int, o1: OptionEntry, opts2: seq<OptionEntry>,
                           j: nat, score: (string, string) -> Ratio): seq<SimilarOption>
    requires j <= |opts2|
  {
    if j == 0 then []
    else
      var o2 := opts2[j - 1];
      var here := if score(o1.name, o2.name) >= SimilarityThreshold then [Row(eventId, o1, o2)] else [];
      InnerRows(eventId, o1, opts2, j - 1, score) + here
  }

  /** The rows emitted for one event after the first i options of its first bet. */
  ghost function OuterRows(eventId: int, opts1: seq<OptionEntry>, opts2: seq<OptionEntry>,
                           i: nat, score: (string, string) -> Ratio): seq<SimilarOption>
    requires i <= |opts1|
  {
    if i == 0 then []
    else OuterRows(eventId, opts1, opts2, i - 1, score) + InnerRows(eventId, opts1[i - 1], opts2, |opts2|, score)
  }

  /** The rows emitted for one event pair. */
  ghost function EventRows(e: SimilarEvent, choices: seq<BetChoice>, score: (string, string) -> Ratio): seq<SimilarOption>
  {
    var opts1 := OptionsOf(choices, e.betId1);
    OuterRows(e.eventId, opts1, OptionsOf(choices, e.betId2), |opts1|, score)
  }

  /** The rows emitted for the first k event pairs, in nested-loop order. */
  ghost function MatchedRows(events: seq<SimilarEvent>, choices: seq<BetChoice>,
                             score: (string, string) -> Ratio, k: nat): seq<SimilarOption>
    requires k <= |events|
  {
    if k == 0 then [] else MatchedRows(events, choices, score, k - 1) + EventRows(events[k - 1], choices, score)
  }

  /** Row `r` pairs an option of event `e`'s first bet with an option of its
      second bet, carries the event id and both names unchanged, and the two
      names score at least the threshold. */
  ghost predicate RowFits(r: SimilarOption, e: SimilarEvent, choices: seq<BetChoice>, score: (string, string) -> Ratio)
  {
    && r.eventId == e.eventId
    && BetChoice(r.optionId1, e.betId1, r.optionName1) in choices
    && BetChoice(r.optionId2, e.betId2, r.optionName2) in choices
    && score(r.optionName1, r.optionName2) >= SimilarityThreshold
  }

  lemma {:induction false} InnerRowsMembers(eventId: int, o1: OptionEntry, opts2: seq<OptionEntry>,
                                            j: nat, score: (string, string) -> Ratio)
    requires j <= |opts2|
    ensures forall r :: r in InnerRows(eventId, o1, opts2, j, score) <==>
      && r.eventId == eventId && r.optionId1 == o1.optionId && r.optionName1 == o1.name
      && OptionEntry(r.optionId2, r.optionName2) in opts2[..j]
      && score(r.optionName1, r.optionName2) >= SimilarityThreshold
  {
    if j > 0 {
      InnerRowsMembers(eventId, o1, opts2, j - 1, score);
      assert opts2[..j] == opts2[..j - 1] + [opts2[j - 1]];
    }
  }

  lemma {:induction false} OuterRowsMembers(eventId: int, opts1: seq<OptionEntry>, opts2: seq<OptionEntry>,
                                            i: nat, score: (string, string) -> Ratio)
    requires i <= |opts1|
    ensures forall r :: r in OuterRows(eventId, opts1, opts2, i, score) <==>
      && r.eventId == eventId
      && OptionEntry(r.optionId1, r.optionName1) in opts1[..i]
      && OptionEntry(r.optionId2, r.optionName2) in opts2
      && score(r.optionName1, r.optionName2) >= SimilarityThreshold
  {
    if i > 0 {
      OuterRowsMembers(eventId, opts1, opts2, i - 1, score);
      InnerRowsMembers(eventId, opts1[i - 1], opts2, |opts2|, score);
      assert opts1[..i] == opts1[..i - 1] + [opts1[i - 1]];
      assert opts2[..|opts2|] == opts2;
    }
  }

  lemma EventRowsMembers(e: SimilarEvent, choices: seq<BetChoice>, score: (string, string) -> Ratio)
    ensures forall r :: r in EventRows(e, choices, score) <==> RowFits(r, e, choices, score)
  {
    var opts1 := OptionsOf(choices, e.betId1);
    OuterRowsMembers(e.eventId, opts1, OptionsOf(choices, e.betId2), |opts1|, score);
    OptionsOfMembers(choices, e.betId1);
    OptionsOfMembers(choices, e.betId2);
    assert opts1[..|opts1|] == opts1;
  }

  /** Soundness and completeness of the first k event pairs' rows. */
  lemma {:induction false} MatchedRowsMembers(events: seq<SimilarEvent>, choices: seq<BetChoice>,
                                              score: (string, string) -> Ratio, k: nat)
    requires k <= |events|
    ensures forall r :: r in MatchedRows(events, choices, score, k) <==>
      exists q :: 0 <= q < k && RowFits(r, events[q], choices, score)
  {
    if k > 0 {
      MatchedRowsMembers(events, choices, score, k - 1);
      EventRowsMembers(events[k - 1], choices, score);
    }
  }

  /** The emitted rows are exactly the pairs, over all event pairs, of an
      option of the first bet and an option of the second whose names reach
      the threshold. In particular every emitted row has a score of at least
      0.1, and nothing makes the matching one-to-one: every qualifying pair is
      emitted, however many other rows share one of its options. */
  lemma MatchedRowsSoundAndComplete(events: seq<SimilarEvent>, choices: seq<BetChoice>,
                                    score: (string, string) -> Ratio)
    ensures forall r :: r in MatchedRows(events, choices, score, |events|) ==>
      score(r.optionName1, r.optionName2) >= SimilarityThreshold
    ensures forall r :: r in MatchedRows(events, choices, score, |events|) <==>
      exists q :: 0 <= q < |events| && RowFits(r, events[q], choices, score)
    ensures forall q, c1, c2 ::
      0 <= q < |events| && c1 in choices && c2 in choices &&
      c1.betId == events[q].betId1 && c2.betId == events[q].betId2 &&
      score(c1.name, c2.name) >= SimilarityThreshold ==>
      SimilarOption(events[q].eventId, c1.optionId, c2.optionId, c1.name, c2.name)
        in MatchedRows(events, choices, score, |events|)
  {
    MatchedRowsMembers(events, choices, score, |events|);
    forall q, c1, c2 |
      0 <= q < |events| && c1 in choices && c2 in choices &&
      c1.betId == events[q].betId1 && c2.betId == events[q].betId2 &&
      score(c1.name, c2.name) >= SimilarityThreshold
      ensures SimilarOption(events[q].eventId, c1.optionId, c2.optionId, c1.name, c2.name)
        in MatchedRows(events, choices, score, |events|)
    {
      var r := SimilarOption(events[q].eventId, c1.optionId, c2.optionId, c1.name, c2.name);
      assert c1 == BetChoice(r.optionId1, events[q].betId1, r.optionName1);
      assert c2 == BetChoice(r.optionId2, events[q].betId2, r.optionName2);
      assert RowFits(r, events[q], choices, score);
    }
  }

  /** The nested loops at option_check.py:53-86: for every event pair, compare
      every option of its first bet with every option of its second bet and
      emit a row whenever the names score at least 0.1. */
  method MatchSimilarEventOptions(events: seq<SimilarEvent>, choices: seq<BetChoice>,
                                  score: (string, string) -> Ratio) returns (rows: seq<SimilarOption>)
    ensures rows == MatchedRows(events, choices, score, |events|)
  {
    rows := [];
    for k := 0 to |events|
      invariant rows == MatchedRows(events, choices, score, k)
    {
      var e := events[k];
      var options1 := OptionsOf(choices, e.betId1);
      var options2 := OptionsOf(choices, e.betId2);
      ghost var before := rows;
      for i := 0 to |options1|
        invariant rows == before + OuterRows(e.eventId, options1, options2, i, score)
      {
        var option1 := options1[i];
        ghost var outer := rows;
        for j := 0 to |options2|
          invariant rows == outer + InnerRows(e.eventId, option1, options2, j, score)
        {
          var option2 := options2[j];
          if score(option1.name, option2.name) >= SimilarityThreshold {
            rows := rows + [SimilarOption(e.eventId, option1.optionId, option2.optionId, option1.name, option2.name)];
          }
        }
      }
    }
  }

  /** The similar_event_options table as this code sees it: the committed rows. */
  class SimilarEventOptionsTable {
    var rows: seq<SimilarOption>

    constructor (initial: seq<SimilarOption>)
      ensures rows == initial
    {
      rows := initial;
    }

    /** populate_similar_event_options: all the run's inserts are committed
        together when no statement raises; when one does (`fails` stands for
        that), the run is rolled back and the table is as before. Nothing is
        checked before inserting, so a second run over the same data appends
        the same rows again. */
    method PopulateSimilarEventOptions(events: seq<SimilarEvent>, choices: seq<BetChoice>,
                                       score: (string, string) -> Ratio, fails: bool)
      modifies this
      ensures rows == if fails then old(rows) else old(rows) + MatchedRows(events, choices, score, |events|)
    {
      var inserted := MatchSimilarEventOptions(events, choices, score);
      if !fails {
        rows := rows + inserted;
      }
    }
  }

  /** Running the population twice over unchanged data duplicates every row. */
  method RerunDuplicates(events: seq<SimilarEvent>, choices: seq<BetChoice>, score: (string, string) -> Ratio)
    returns (table: SimilarEventOptionsTable)
    ensures table.rows == MatchedRows(events, choices, score, |events|) + MatchedRows(events, choices, score, |events|)
  {
    ghost var matched := MatchedRows(events, choices, score, |events|);
    table := new SimilarEventOptionsTable([]);
    table.PopulateSimilarEventOptions(events, choices, score, false);
    assert table.rows == [] + matched == matched;
    table.PopulateSimilarEventOptions(events, choices, score, false);
  }
}
