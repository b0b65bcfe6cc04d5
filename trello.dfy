/**
 * The conversion of a parsed Trello board export into a Deck board: the
 * colour table, the output records, and the filter / map / stable-sort
 * pipeline that builds labels, checklists, comments, attachments, cards,
 * stacks and the board itself.
 */
module Trello {

  import opened Wrappers
  import opened Seqs
  import Decimal

  /*** Colour table ***/

  /** Trello colour names, and "no colour", to hex RGB. */
  const ColorMap: map<Option<string>, string> := map[
    Some("green") := "49b675",
    Some("yellow") := "FFFF00",
    Some("orange") := "FFA500",
    Some("red") := "FF0000",
    Some("purple") := "800080",
    Some("blue") := "0000FF",
    Some("sky") := "87ceeb",
    Some("lime") := "9efd38",
    Some("pink") := "c09da4",
    Some("black") := "000000",
    None := "b3bac5"
  ]

  predicate IsHexDigit(c: char)
  {
    '0' <= c <= '9' || 'a' <= c <= 'f' || 'A' <= c <= 'F'
  }

  /** Six hex digits, as Deck expects a colour. */
  predicate IsHexColor(s: string)
  {
    |s| == 6 && forall i :: 0 <= i < 6 ==> IsHexDigit(s[i])
  }

  /*** The export, as far as the conversion reads it ***/

  datatype SourceLabel = SourceLabel(id: string, name: string, color: Option<string>)

  datatype SourceList = SourceList(id: string, name: string, pos: int, closed: bool)

  datatype SourceAttachment =
    SourceAttachment(fileName: string, url: string, mimeType: string, isUpload: bool)

  /** `due` is `badges.due`. */
  datatype SourceCard = SourceCard(
    id: string,
    idList: string,
    name: string,
    closed: bool,
    due: Option<string>,
    desc: string,
    pos: int,
    idLabels: seq<string>,
    shortUrl: string,
    attachments: seq<SourceAttachment>)

  datatype SourceCheckItem = SourceCheckItem(name: string, pos: int)

  datatype SourceChecklist =
    SourceChecklist(idCard: string, name: string, pos: int, checkItems: seq<SourceCheckItem>)

  /** An entry of the action log: `type`, `data.card.id` and `data.text`. */
  datatype Action = Action(kind: string, cardId: string, text: string)

  /** `background` is `prefs.background`. */
  datatype TrelloExport = TrelloExport(
    name: string,
    labels: seq<SourceLabel>,
    lists: seq<SourceList>,
    cards: seq<SourceCard>,
    checklists: seq<SourceChecklist>,
    actions: seq<Action>,
    background: string)

  /*** The Deck board ***/

  datatype ChecklistItem = ChecklistItem(name: string, completed: bool, order: int)

  datatype Checklist = Checklist(name: string, items: seq<ChecklistItem>, order: int)

  datatype Label = Label(trelloId: string, name: string, color: string)

  datatype Attachment = Attachment(fileName: string, url: string, mimeType: string)

  /** What the ISO 8601 parser returns; the parser itself is a parameter of the conversion. */
  datatype DateTime = DateTime(
    year: int, month: int, day: int,
    hour: int, minute: int, second: int, microsecond: int,
    utcOffsetMinutes: Option<int>)

  datatype Card = Card(
    name: string,
    archived: bool,
    dueDate: Option<DateTime>,
    description: string,
    order: int,
    checklists: seq<Checklist>,
    labels: seq<Label>,
    trelloUrl: string,
    comments: seq<string>,
    attachments: seq<Attachment>)

  datatype Stack = Stack(name: string, order: int, cards: seq<Card>)

  datatype Board = Board(title: string, color: string, labels: seq<Label>, stacks: seq<Stack>)

  /** The exceptions that escape the conversion. */
  datatype Error =
    | UnknownLabelColor(color: Option<string>)  // KeyError from the colour table
    | MalformedDueDate(due: string)             // raised by the ISO 8601 parser

  /** The ISO 8601 parser: `None` when it rejects the string. */
  type DateParser = string -> Option<DateTime>

  /*** Sort keys ***/

  function ItemOrder(item: ChecklistItem): int { item.order }

  function ChecklistOrder(checklist: Checklist): int { checklist.order }

  function CardOrder(card: Card): int { card.order }

  function StackOrder(stack: Stack): int { stack.order }

  /*** Colours ***/

  lemma ColorTableIsHex()
    ensures forall c :: c in ColorMap ==> IsHexColor(ColorMap[c])
  {
    forall c | c in ColorMap ensures IsHexColor(ColorMap[c]) {
      var v := ColorMap[c];
      assert v in {"49b675", "FFFF00", "FFA500", "FF0000", "800080", "0000FF",
                   "87ceeb", "9efd38", "c09da4", "000000", "b3bac5"};
    }
  }

  /**
   * A label colour through the table. `None` has its own entry; a name missing
   * from the table raises KeyError, which nothing catches.
   */
  function LabelColor(color: Option<string>): (r: Result<string, Error>)
    ensures color == None ==> r == Success("b3bac5")
    ensures r.Success? <==> color in ColorMap
    ensures r.Success? ==> r.value == ColorMap[color] && IsHexColor(r.value)
    ensures r.Failure? ==> r.error == UnknownLabelColor(color)
  {
    ColorTableIsHex();
    if color in ColorMap then Success(ColorMap[color]) else Failure(UnknownLabelColor(color))
  }

  /**
   * The board background: a 24-character value names an image and gives
   * "green"; anything else is looked up as a colour name, and a name missing
   * from the table also gives "green" (the KeyError is caught).
   */
  function BackgroundColor(background: string): (r: string)
    ensures |background| == 24 ==> r == "green"
    ensures |background| != 24 && Some(background) in ColorMap ==> r == ColorMap[Some(background)]
    ensures Some(background) !in ColorMap ==> r == "green"
    ensures r == "green" || IsHexColor(r)
    ensures r != ColorMap[None]
  {
    ColorTableIsHex();
    if |background| != 24 then
      if Some(background) in ColorMap then ColorMap[Some(background)] else "green"
    else
      "green"
  }

  /*** Labels ***/

  /** The name of the label at 0-based position `index`: its own, or "Label N" with N = index + 1. */
  function LabelName(name: string, index: nat): (r: string)
    ensures |r| > 0
    ensures |name| > 0 ==> r == name
  {
    if |name| > 0 then name else "Label " + Decimal.NatToString(index + 1)
  }

  /** Two unnamed labels at different positions get different default names. */
  lemma DefaultLabelNamesDistinct(i: nat, j: nat)
    requires i != j
    ensures LabelName("", i) != LabelName("", j)
  {
    if LabelName("", i) == LabelName("", j) {
      var a, b := Decimal.NatToString(i + 1), Decimal.NatToString(j + 1);
      assert a == LabelName("", i)[6..] == LabelName("", j)[6..] == b;
      Decimal.NatToStringInjective(i + 1, j + 1);
    }
  }

  /** The labels of `src`, which starts at 0-based position `start` of the export's labels. */
  function LabelsFrom(src: seq<SourceLabel>, start: nat): (r: Result<seq<Label>, Error>)
    ensures r.Success? <==> forall i :: 0 <= i < |src| ==> src[i].color in ColorMap
    ensures r.Success? ==> |r.value| == |src| && forall i :: 0 <= i < |src| ==>
      r.value[i] == Label(src[i].id, LabelName(src[i].name, start + i), ColorMap[src[i].color])
    ensures r.Failure? ==>
      exists i :: 0 <= i < |src| && src[i].color !in ColorMap
        && r.error == UnknownLabelColor(src[i].color)
        && forall j :: 0 <= j < i ==> src[j].color in ColorMap
    decreases |src|
  {
    if src == [] then Success([])
    else
      var color :- LabelColor(src[0].color);
      var rest :- LabelsFrom(src[1..], start + 1);
      Success([Label(src[0].id, LabelName(src[0].name, start), color)] + rest)
  }

  predicate LabelColorsKnown(src: seq<SourceLabel>)
  {
    forall i :: 0 <= i < |src| ==> src[i].color in ColorMap
  }

  /**
   * The board labels, in the order of the export: label i keeps the id of
   * source label i, gets a non-empty name and the hex colour of its colour name.
   */
  function BuildLabels(src: seq<SourceLabel>): (r: Result<seq<Label>, Error>)
    ensures r.Success? <==> LabelColorsKnown(src)
    ensures r.Success? ==> |r.value| == |src|
    ensures r.Success? ==> forall i :: 0 <= i < |src| ==>
      && r.value[i].trelloId == src[i].id
      && |r.value[i].name| > 0
      && (src[i].name != "" ==> r.value[i].name == src[i].name)
      && (src[i].name == "" ==> r.value[i].name == "Label " + Decimal.NatToString(i + 1))
      && (src[i].color == None ==> r.value[i].color == "b3bac5")
      && IsHexColor(r.value[i].color)
    ensures r.Failure? ==>
      exists i :: 0 <= i < |src| && src[i].color !in ColorMap
        && r.error == UnknownLabelColor(src[i].color)
  {
    ColorTableIsHex();
    LabelsFrom(src, 0)
  }

  /*** Checklists ***/

  /** Reproduces the source literally: an item is completed when its NAME is "completed". */
  function ToChecklistItem(item: SourceCheckItem): ChecklistItem
  {
    ChecklistItem(item.name, item.name == "completed", item.pos)
  }

  function ToChecklistItems(items: seq<SourceCheckItem>): (r: seq<ChecklistItem>)
    ensures |r| == |items| && forall i :: 0 <= i < |items| ==> r[i] == ToChecklistItem(items[i])
  {
    seq(|items|, i requires 0 <= i < |items| => ToChecklistItem(items[i]))
  }

  /** A checklist with its items in a stable sort by position. */
  function ToChecklist(source: SourceChecklist): (r: Checklist)
    ensures r.name == source.name && r.order == source.pos
    ensures IsStableSortOf(r.items, ToChecklistItems(source.checkItems), ItemOrder)
    ensures forall item :: item in r.items ==>
      && (item.completed <==> item.name == "completed")
      && exists src :: src in source.checkItems && src.name == item.name && src.pos == item.order
  {
    var items := ToChecklistItems(source.checkItems);
    SortByKeyIsStableSort(items, ItemOrder);
    var sorted := SortByKey(items, ItemOrder);
    assert forall item :: item in sorted ==> item in items by {
      forall item | item in sorted ensures item in items {
        assert item in multiset(sorted);
      }
    }
    Checklist(source.name, sorted, source.pos)
  }

  function ToChecklists(sources: seq<SourceChecklist>): (r: seq<Checklist>)
    ensures |r| == |sources| && forall i :: 0 <= i < |sources| ==> r[i] == ToChecklist(sources[i])
  {
    seq(|sources|, i requires 0 <= i < |sources| => ToChecklist(sources[i]))
  }

  function BelongsToCard(cardId: string): SourceChecklist -> bool
  {
    (checklist: SourceChecklist) => checklist.idCard == cardId
  }

  function ChecklistsOfCard(checklists: seq<SourceChecklist>, cardId: string): (r: seq<SourceChecklist>)
    ensures IsSelectionOf(r, checklists, BelongsToCard(cardId))
    ensures forall checklist :: checklist in r <==> checklist in checklists && checklist.idCard == cardId
  {
    FilterIsSelection(checklists, BelongsToCard(cardId));
    Filter(checklists, BelongsToCard(cardId))
  }

  /**
   * The checklists of one card: exactly those whose card id matches, in a
   * stable sort by position, each with its items in a stable sort by position.
   */
  function GetChecklistByCard(checklists: seq<SourceChecklist>, cardId: string): (r: seq<Checklist>)
    ensures IsStableSortOf(r, ToChecklists(ChecklistsOfCard(checklists, cardId)), ChecklistOrder)
    ensures forall c :: c in r <==> exists src :: src in checklists && src.idCard == cardId && c == ToChecklist(src)
    ensures forall c :: c in r ==> SortedBy(c.items, ItemOrder)
  {
    var selected := ChecklistsOfCard(checklists, cardId);
    var mapped := ToChecklists(selected);
    SortByKeyIsStableSort(mapped, ChecklistOrder);
    forall c | c in mapped ensures exists src :: src in selected && c == ToChecklist(src) {
      var i :| 0 <= i < |mapped| && mapped[i] == c;
      assert selected[i] in selected;
    }
    SortByKey(mapped, ChecklistOrder)
  }

  /*** Comments ***/

  function IsCommentOn(cardId: string): Action -> bool
  {
    (action: Action) => action.kind == "commentCard" && action.cardId == cardId
  }

  /**
   * The comments on one card: the texts of exactly the "commentCard" actions
   * for that card, in action-log order, not re-sorted.
   */
  function GetCommentsByCard(actions: seq<Action>, cardId: string): (r: seq<string>)
    ensures exists selected: seq<Action> ::
              && IsSelectionOf(selected, actions, IsCommentOn(cardId))
              && |r| == |selected|
              && forall i :: 0 <= i < |r| ==> r[i] == selected[i].text
  {
    var selected := Filter(actions, IsCommentOn(cardId));
    FilterIsSelection(actions, IsCommentOn(cardId));
    seq(|selected|, i requires 0 <= i < |selected| => selected[i].text)
  }

  /*** Card labels ***/

  function HasIdIn(labelIds: seq<string>): Label -> bool
  {
    (l: Label) => l.trelloId in labelIds
  }

  /**
   * The board labels a card refers to: in board-label order; ids that name
   * no board label are dropped.
   */
  function GetLabelIds(labels: seq<Label>, labelIds: seq<string>): (r: seq<Label>)
    ensures IsSelectionOf(r, labels, HasIdIn(labelIds))
    ensures forall l :: l in r <==> l in labels && l.trelloId in labelIds
  {
    FilterIsSelection(labels, HasIdIn(labelIds));
    Filter(labels, HasIdIn(labelIds))
  }

  /*** Attachments ***/

  predicate IsUpload(attachment: SourceAttachment)
  {
    attachment.isUpload
  }

  /** The uploaded files of a card, in order, with their fields copied; links are dropped. */
  function UploadedAttachments(attachments: seq<SourceAttachment>): (r: seq<Attachment>)
    ensures exists selected: seq<SourceAttachment> ::
              && IsSelectionOf(selected, attachments, IsUpload)
              && |r| == |selected|
              && forall i :: 0 <= i < |r| ==>
                   r[i] == Attachment(selected[i].fileName, selected[i].url, selected[i].mimeType)
  {
    var selected := Filter(attachments, IsUpload);
    FilterIsSelection(attachments, IsUpload);
    seq(|selected|, i requires 0 <= i < |selected| =>
      Attachment(selected[i].fileName, selected[i].url, selected[i].mimeType))
  }

  /*** Cards ***/

  /** `badges.due` through the ISO 8601 parser; absent exactly when there is no due date. */
  function ParseDue(due: Option<string>, isoparse: DateParser): (r: Result<Option<DateTime>, Error>)
    ensures r.Success? <==> (due.Some? ==> isoparse(due.value).Some?)
    ensures r.Success? ==> (r.value.Some? <==> due.Some?)
    ensures r.Success? && due.Some? ==> r.value == isoparse(due.value)
    ensures r.Failure? ==> due.Some? && r.error == MalformedDueDate(due.value)
  {
    match due
    case None => Success(None)
    case Some(text) =>
      match isoparse(text)
      case None => Failure(MalformedDueDate(text))
      case Some(date) => Success(Some(date))
  }

  /** One card with everything the board knows about it; fails only on a malformed due date. */
  function ToCard(
    card: SourceCard, checklists: seq<SourceChecklist>, actions: seq<Action>,
    labels: seq<Label>, isoparse: DateParser): (r: Result<Card, Error>)
    ensures r.Success? <==> (card.due.Some? ==> isoparse(card.due.value).Some?)
    ensures r.Failure? ==> r.error == MalformedDueDate(card.due.value)
  {
    var dueDate :- ParseDue(card.due, isoparse);
    Success(Card(
      card.name,
      card.closed,
      dueDate,
      card.desc,
      card.pos,
      GetChecklistByCard(checklists, card.id),
      GetLabelIds(labels, card.idLabels),
      card.shortUrl,
      GetCommentsByCard(actions, card.id),
      UploadedAttachments(card.attachments)))
  }

  /**
   * A built card copies the plain fields of its source card and holds its
   * checklists, board labels, comments and uploaded attachments.
   */
  lemma ToCardFields(
    card: SourceCard, checklists: seq<SourceChecklist>, actions: seq<Action>,
    labels: seq<Label>, isoparse: DateParser)
    requires card.due.Some? ==> isoparse(card.due.value).Some?
    ensures ToCard(card, checklists, actions, labels, isoparse).Success?
    ensures
      var c := ToCard(card, checklists, actions, labels, isoparse).value;
      && c.name == card.name && c.archived == card.closed
      && c.description == card.desc && c.order == card.pos
      && c.trelloUrl == card.shortUrl
      && (c.dueDate.Some? <==> card.due.Some?)
      && c.checklists == GetChecklistByCard(checklists, card.id)
      && c.labels == GetLabelIds(labels, card.idLabels)
      && c.comments == GetCommentsByCard(actions, card.id)
      && c.attachments == UploadedAttachments(card.attachments)
  {
  }

  function CardBuilder(
    checklists: seq<SourceChecklist>, actions: seq<Action>,
    labels: seq<Label>, isoparse: DateParser): SourceCard -> Result<Card, Error>
  {
    (card: SourceCard) => ToCard(card, checklists, actions, labels, isoparse)
  }

  function IsOnList(listId: string): SourceCard -> bool
  {
    (card: SourceCard) => card.idList == listId
  }

  function CardsOfList(cards: seq<SourceCard>, listId: string): (r: seq<SourceCard>)
    ensures IsSelectionOf(r, cards, IsOnList(listId))
    ensures forall card :: card in r <==> card in cards && card.idList == listId
  {
    FilterIsSelection(cards, IsOnList(listId));
    Filter(cards, IsOnList(listId))
  }

  /** Every card of the list whose due date is set has one the parser accepts. */
  predicate DueDatesParseOn(cards: seq<SourceCard>, listId: string, isoparse: DateParser)
  {
    forall card :: card in cards && card.idList == listId && card.due.Some? ==> isoparse(card.due.value).Some?
  }

  /**
   * The cards of one list: exactly the cards whose list id matches, built
   * and then put in a stable sort by position. Building a card with a due
   * date the parser rejects aborts.
   */
  function GetCardsByStack(
    cards: seq<SourceCard>, checklists: seq<SourceChecklist>, actions: seq<Action>,
    labels: seq<Label>, stackId: string, isoparse: DateParser): (r: Result<seq<Card>, Error>)
    ensures r.Success? <==> DueDatesParseOn(cards, stackId, isoparse)
    ensures r.Failure? ==>
      exists card :: card in cards && card.idList == stackId && card.due.Some?
        && isoparse(card.due.value).None? && r.error == MalformedDueDate(card.due.value)
    ensures r.Success? ==>
      var built := MapAll(CardsOfList(cards, stackId), CardBuilder(checklists, actions, labels, isoparse));
      built.Success? && IsStableSortOf(r.value, built.value, CardOrder)
    ensures r.Success? ==> |r.value| == |CardsOfList(cards, stackId)|
    ensures r.Success? ==> forall c :: c in r.value ==>
      exists card :: card in cards && card.idList == stackId
        && ToCard(card, checklists, actions, labels, isoparse) == Success(c)
  {
    var selected := CardsOfList(cards, stackId);
    var built := MapAll(selected, CardBuilder(checklists, actions, labels, isoparse));
    SelectedCardsParse(cards, checklists, actions, labels, stackId, isoparse);
    match built
    case Failure(e) => Failure(e)
    case Success(mapped) =>
      SortByKeyIsStableSort(mapped, CardOrder);
      Success(SortByKey(mapped, CardOrder))
  }

  /** Building the cards of one list succeeds iff all their due dates parse; a failure names one. */
  lemma SelectedCardsParse(
    cards: seq<SourceCard>, checklists: seq<SourceChecklist>, actions: seq<Action>,
    labels: seq<Label>, stackId: string, isoparse: DateParser)
    ensures
      var built := MapAll(CardsOfList(cards, stackId), CardBuilder(checklists, actions, labels, isoparse));
      && (built.Success? <==> DueDatesParseOn(cards, stackId, isoparse))
      && (built.Success? ==> forall c :: c in built.value ==>
            exists card :: card in cards && card.idList == stackId
              && ToCard(card, checklists, actions, labels, isoparse) == Success(c))
      && (built.Failure? ==>
            exists card :: card in cards && card.idList == stackId && card.due.Some?
              && isoparse(card.due.value).None? && built.error == MalformedDueDate(card.due.value))
  {
    var selected := CardsOfList(cards, stackId);
    var f := CardBuilder(checklists, actions, labels, isoparse);
    var built := MapAll(selected, f);
    if DueDatesParseOn(cards, stackId, isoparse) {
      forall i | 0 <= i < |selected| ensures f(selected[i]).Success? {
        assert selected[i] in selected;
      }
      forall c | c in built.value
        ensures exists card :: card in cards && card.idList == stackId
                 && ToCard(card, checklists, actions, labels, isoparse) == Success(c)
      {
        var i :| 0 <= i < |built.value| && built.value[i] == c;
        assert selected[i] in selected;
      }
    } else {
      var card :| card in cards && card.idList == stackId && card.due.Some? && isoparse(card.due.value).None?;
      assert card in selected;
      var k :| 0 <= k < |selected| && selected[k] == card;
      assert f(selected[k]).Failure?;
      var i :| 0 <= i < |selected| && f(selected[i]) == Failure(built.error);
      assert selected[i] in selected;
    }
  }

  /*** Stacks and the board ***/

  predicate IsOpen(list: SourceList)
  {
    !list.closed
  }

  function OpenLists(lists: seq<SourceList>): (r: seq<SourceList>)
    ensures IsSelectionOf(r, lists, IsOpen)
    ensures forall list :: list in r <==> list in lists && !list.closed
  {
    FilterIsSelection(lists, IsOpen);
    Filter(lists, IsOpen)
  }

  /** A stack for one list, holding that list's cards built with the board labels. */
  function ToStack(list: SourceList, trello: TrelloExport, labels: seq<Label>, isoparse: DateParser): (r: Result<Stack, Error>)
    ensures r.Success? <==> DueDatesParseOn(trello.cards, list.id, isoparse)
    ensures r.Failure? ==>
      exists card :: card in trello.cards && card.idList == list.id && card.due.Some?
        && isoparse(card.due.value).None? && r.error == MalformedDueDate(card.due.value)
    ensures r.Success? ==>
      && r.value.name == list.name && r.value.order == list.pos
      && Success(r.value.cards)
         == GetCardsByStack(trello.cards, trello.checklists, trello.actions, labels, list.id, isoparse)
  {
    var cards :- GetCardsByStack(trello.cards, trello.checklists, trello.actions, labels, list.id, isoparse);
    Success(Stack(list.name, list.pos, cards))
  }

  function StackBuilder(trello: TrelloExport, labels: seq<Label>, isoparse: DateParser): SourceList -> Result<Stack, Error>
  {
    (list: SourceList) => ToStack(list, trello, labels, isoparse)
  }

  /** A card belongs to a list that is not closed. */
  predicate OnOpenList(card: SourceCard, lists: seq<SourceList>)
  {
    exists list :: list in lists && !list.closed && list.id == card.idList
  }

  /** Every card that is converted has a due date the parser accepts, or none. */
  predicate DueDatesParse(trello: TrelloExport, isoparse: DateParser)
  {
    forall card :: card in trello.cards && card.due.Some? && OnOpenList(card, trello.lists) ==>
      isoparse(card.due.value).Some?
  }

  /**
   * The stacks: exactly the lists that are not closed, in a stable sort by
   * position, each holding the cards of its own list.
   */
  function BuildStacks(trello: TrelloExport, labels: seq<Label>, isoparse: DateParser): (r: Result<seq<Stack>, Error>)
    ensures r.Success? <==> DueDatesParse(trello, isoparse)
    ensures r.Failure? ==>
      exists card :: card in trello.cards && OnOpenList(card, trello.lists) && card.due.Some?
        && isoparse(card.due.value).None? && r.error == MalformedDueDate(card.due.value)
    ensures r.Success? ==>
      var built := MapAll(OpenLists(trello.lists), StackBuilder(trello, labels, isoparse));
      built.Success? && IsStableSortOf(r.value, built.value, StackOrder)
    ensures r.Success? ==> |r.value| == |OpenLists(trello.lists)|
    ensures r.Success? ==> forall stack :: stack in r.value ==>
      exists list :: list in trello.lists && !list.closed
        && ToStack(list, trello, labels, isoparse) == Success(stack)
  {
    var built := MapAll(OpenLists(trello.lists), StackBuilder(trello, labels, isoparse));
    OpenListsBuild(trello, labels, isoparse);
    match built
    case Failure(e) => Failure(e)
    case Success(mapped) =>
      SortByKeyIsStableSort(mapped, StackOrder);
      Success(SortByKey(mapped, StackOrder))
  }

  /** Building the stacks succeeds iff every converted card's due date parses. */
  lemma OpenListsBuild(trello: TrelloExport, labels: seq<Label>, isoparse: DateParser)
    ensures
      var built := MapAll(OpenLists(trello.lists), StackBuilder(trello, labels, isoparse));
      && (built.Success? <==> DueDatesParse(trello, isoparse))
      && (built.Success? ==> forall stack :: stack in built.value ==>
            exists list :: list in trello.lists && !list.closed
              && ToStack(list, trello, labels, isoparse) == Success(stack))
      && (built.Failure? ==>
            exists card :: card in trello.cards && OnOpenList(card, trello.lists) && card.due.Some?
              && isoparse(card.due.value).None? && built.error == MalformedDueDate(card.due.value))
  {
    var open := OpenLists(trello.lists);
    var built := MapAll(open, StackBuilder(trello, labels, isoparse));
    OpenListsParse(trello, open, isoparse);
    if built.Success? {
      BuiltStacksFromOpenLists(trello, labels, isoparse);
    } else {
      StackFailureNamesCard(trello, labels, isoparse);
    }
  }

  lemma BuiltStacksFromOpenLists(trello: TrelloExport, labels: seq<Label>, isoparse: DateParser)
    requires MapAll(OpenLists(trello.lists), StackBuilder(trello, labels, isoparse)).Success?
    ensures forall stack :: stack in MapAll(OpenLists(trello.lists), StackBuilder(trello, labels, isoparse)).value ==>
      exists list :: list in trello.lists && !list.closed
        && ToStack(list, trello, labels, isoparse) == Success(stack)
  {
    var open := OpenLists(trello.lists);
    var built := MapAll(open, StackBuilder(trello, labels, isoparse));
    forall stack | stack in built.value
      ensures exists list :: list in trello.lists && !list.closed
                && ToStack(list, trello, labels, isoparse) == Success(stack)
    {
      var i :| 0 <= i < |built.value| && built.value[i] == stack;
      assert open[i] in open;
    }
  }

  lemma StackFailureNamesCard(trello: TrelloExport, labels: seq<Label>, isoparse: DateParser)
    requires !DueDatesParse(trello, isoparse)
    ensures MapAll(OpenLists(trello.lists), StackBuilder(trello, labels, isoparse)).Failure?
    ensures
      var e := MapAll(OpenLists(trello.lists), StackBuilder(trello, labels, isoparse)).error;
      exists card :: card in trello.cards && OnOpenList(card, trello.lists) && card.due.Some?
        && isoparse(card.due.value).None? && e == MalformedDueDate(card.due.value)
  {
    var open := OpenLists(trello.lists);
    var f := StackBuilder(trello, labels, isoparse);
    var built := MapAll(open, f);
    OpenListsParse(trello, open, isoparse);
    var i :| 0 <= i < |open| && f(open[i]) == Failure(built.error);
    assert open[i] in open;
    var card :| card in trello.cards && card.idList == open[i].id && card.due.Some?
      && isoparse(card.due.value).None? && built.error == MalformedDueDate(card.due.value);
    assert OnOpenList(card, trello.lists);
  }

  /** All due dates of the cards on open lists parse iff they parse list by open list. */
  lemma OpenListsParse(trello: TrelloExport, open: seq<SourceList>, isoparse: DateParser)
    requires forall list :: list in open <==> list in trello.lists && !list.closed
    ensures DueDatesParse(trello, isoparse)
        <==> forall i :: 0 <= i < |open| ==> DueDatesParseOn(trello.cards, open[i].id, isoparse)
  {
    if DueDatesParse(trello, isoparse) {
      forall i, card | 0 <= i < |open| && card in trello.cards && card.idList == open[i].id && card.due.Some?
        ensures isoparse(card.due.value).Some?
      {
        assert open[i] in open;
        assert OnOpenList(card, trello.lists);
      }
    }
    if forall i :: 0 <= i < |open| ==> DueDatesParseOn(trello.cards, open[i].id, isoparse) {
      forall card | card in trello.cards && card.due.Some? && OnOpenList(card, trello.lists)
        ensures isoparse(card.due.value).Some?
      {
        var list :| list in trello.lists && !list.closed && list.id == card.idList;
        var i :| 0 <= i < |open| && open[i] == list;
        assert DueDatesParseOn(trello.cards, open[i].id, isoparse);
      }
    }
  }

  /**
   * The whole conversion. Labels come first, so an unknown label colour
   * aborts before any card is built; a malformed due date aborts only when
   * its card sits on a list that is not closed.
   */
  function ToBoard(trello: TrelloExport, isoparse: DateParser): (r: Result<Board, Error>)
    ensures r.Success? <==> LabelColorsKnown(trello.labels) && DueDatesParse(trello, isoparse)
    ensures !LabelColorsKnown(trello.labels) ==> r.Failure? && r.error.UnknownLabelColor?
    ensures LabelColorsKnown(trello.labels) && !DueDatesParse(trello, isoparse) ==>
      r.Failure? && r.error.MalformedDueDate?
    ensures r.Success? ==>
      && r.value.title == trello.name
      && r.value.color == BackgroundColor(trello.background)
      && Success(r.value.labels) == BuildLabels(trello.labels)
      && Success(r.value.stacks) == BuildStacks(trello, r.value.labels, isoparse)
  {
    var labels :- BuildLabels(trello.labels);
    var stacks :- BuildStacks(trello, labels, isoparse);
    Success(Board(trello.name, BackgroundColor(trello.background), labels, stacks))
  }
}
