/** Concrete boards run through the conversion. */
module TrelloScenarios {

  import opened Wrappers
  import opened Trello
  import Decimal

  /** Background values: an image id, a colour name, an unknown name. */
  lemma BackgroundExamples()
    ensures BackgroundColor("5f1c3a9e8b7d6c5a4b3c2d1e") == "green"
    ensures BackgroundColor("blue") == "0000FF"
    ensures BackgroundColor("green") == "49b675"
    ensures BackgroundColor("glorp") == "green"
  {
  }

  /** An unnamed label third in the export is called "Label 3". */
  lemma ThirdUnnamedLabel()
    ensures
      var src := [SourceLabel("a", "Urgent", Some("red")), SourceLabel("b", "", None),
                  SourceLabel("c", "", Some("sky"))];
      && BuildLabels(src).Success?
      && BuildLabels(src).value == [Label("a", "Urgent", "FF0000"), Label("b", "Label 2", "b3bac5"),
                                     Label("c", "Label 3", "87ceeb")]
  {
    var src := [SourceLabel("a", "Urgent", Some("red")), SourceLabel("b", "", None),
                SourceLabel("c", "", Some("sky"))];
    assert Decimal.NatToString(2) == "2";
    assert Decimal.NatToString(3) == "3";
    assert LabelName("", 1) == "Label 2";
    assert LabelName("", 2) == "Label 3";
    var labels := BuildLabels(src).value;
    assert labels[0] == Label("a", "Urgent", "FF0000");
    assert labels[1] == Label("b", "Label 2", "b3bac5");
    assert labels[2] == Label("c", "Label 3", "87ceeb");
  }

  /** A label colour outside the table aborts the conversion. */
  lemma UnknownLabelColorAborts(isoparse: DateParser)
    ensures
      var trello := TrelloExport("Board", [SourceLabel("a", "x", Some("magenta"))], [], [], [], [], "blue");
      ToBoard(trello, isoparse) == Failure(UnknownLabelColor(Some("magenta")))
  {
  }

  function Card1(): SourceCard
  {
    SourceCard("c1", "open", "second", false, None, "", 2, [], "u1", [])
  }

  function Card2(): SourceCard
  {
    SourceCard("c2", "open", "first", false, None, "", 1, [], "u2", [])
  }

  function ScenarioExport(): TrelloExport
  {
    TrelloExport(
      "Board", [],
      [SourceList("open", "Doing", 1, false), SourceList("gone", "Archive", 0, true)],
      [Card1(), Card2()], [], [], "glorp")
  }

  /**
   * One open list at position 1 holding cards at positions 2 and 1, and a
   * closed list at position 0: one stack, with the cards in position order.
   */
  lemma ClosedListDroppedCardsSorted(isoparse: DateParser)
    ensures
      var r := ToBoard(ScenarioExport(), isoparse);
      && r.Success?
      && |r.value.stacks| == 1
      && r.value.stacks[0].name == "Doing"
      && |r.value.stacks[0].cards| == 2
      && r.value.stacks[0].cards[0].order == 1
      && r.value.stacks[0].cards[1].order == 2
  {
    var trello := ScenarioExport();
    ScenarioOpenLists();
    ScenarioCards(isoparse);
    assert DueDatesParse(trello, isoparse);
    var r := ToBoard(trello, isoparse);
    assert r.value.labels == [];
    var stacks := r.value.stacks;
    assert |stacks| == 1;
    assert stacks[0] in stacks;
    var list :| list in trello.lists && !list.closed && ToStack(list, trello, [], isoparse) == Success(stacks[0]);
    assert list == SourceList("open", "Doing", 1, false);
  }

  lemma ScenarioOpenLists()
    ensures OpenLists(ScenarioExport().lists) == [SourceList("open", "Doing", 1, false)]
  {
    Seqs.SelectionIsFilter([SourceList("open", "Doing", 1, false)], ScenarioExport().lists, IsOpen);
  }

  lemma ScenarioCards(isoparse: DateParser)
    ensures
      var cards := GetCardsByStack(ScenarioExport().cards, [], [], [], "open", isoparse);
      cards.Success? && |cards.value| == 2 && cards.value[0].order == 1 && cards.value[1].order == 2
  {
    var selected := CardsOfList(ScenarioExport().cards, "open");
    assert selected == [Card1(), Card2()] by {
      Seqs.SelectionIsFilter([Card1(), Card2()], ScenarioExport().cards, IsOnList("open"));
    }
    var f := CardBuilder([], [], [], isoparse);
    var built := Seqs.MapAll(selected, f);
    assert built.Success? && built.value[0].order == 2 && built.value[1].order == 1;
    var cards := GetCardsByStack(ScenarioExport().cards, [], [], [], "open", isoparse);
    TwoSortedCards(cards.value, built.value);
  }

  lemma TwoSortedCards(r: seq<Card>, built: seq<Card>)
    requires |built| == 2 && built[0].order == 2 && built[1].order == 1
    requires Seqs.IsStableSortOf(r, built, CardOrder)
    ensures |r| == 2 && r[0].order == 1 && r[1].order == 2
  {
    assert |multiset(r)| == 2;
    assert r[0] in multiset(built) && r[1] in multiset(built);
    assert multiset(built) == multiset{built[0], built[1]} by {
      assert built == [built[0], built[1]];
    }
    assert built[0] in multiset(r) && built[1] in multiset(r);
    assert CardOrder(r[0]) <= CardOrder(r[1]);
  }
}
