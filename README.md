# trello-to-deck: the board conversion, in Dafny

This project models `trello_to_deck/trello.py`, the pure conversion of a
parsed Trello board export into a Deck board. The conversion builds these records:

- labels with default names ("Label N") and hex colours from a fixed colour table;
- stacks from the lists that are not closed, in a stable sort by position;
- for each stack, the cards whose list id matches, in a stable sort by position;
- for each card, its checklists (the checklists, and the items in each, in a
  stable sort by position), its comments (taken from the action log in log
  order), the board labels it refers to (in board-label order) and its
  uploaded attachments (links are dropped);
- the board background colour. A 24-character value is an image and gives
  "green". Otherwise the value is looked up in the colour table, and a missing
  name also gives "green".

Modules:

- `Wrappers` (wrappers.dfy): `Option` and `Result`.
- `Seqs` (seqs.dfy): the Python builtins the conversion is built from.
  - `filter` is `Filter`. Its exact specification is `IsSelectionOf`: an
    order-preserving selection of exactly the matching elements, and unique.
  - `sorted(..., key=...)` is `SortByKey`, a stable insertion sort. Its
    specification is `IsStableSortOf`: ordered by key, a permutation of the
    input, and the same order within every key class. That specification
    determines the result uniquely.
  - A `map` whose function may raise is `MapAll`: the first failure aborts.
- `Decimal` (decimal.dfy): `"%d"` formatting of the label number.
- `Trello` (trello.dfy): the colour table, the input and output records, and
  the pipeline from `get_checklist_by_card` to `to_board`.
- `TrelloScenarios` (scenarios.dfy): concrete boards run through `ToBoard`.

Two exceptions escape `to_board`, and each is a `Failure` of `ToBoard`:

- A label colour that is neither `None` nor in the colour table raises
  KeyError (trello.py:138). Nothing catches it, so it does not fall back to
  `b3bac5`. It is `UnknownLabelColor`.
- The ISO 8601 parser rejects a due date. It is `MalformedDueDate`.

Labels are built before any card. Cards are only built for lists that are
not closed. So a malformed due date on a card of a closed list, or on a card
whose list does not exist, aborts nothing (`ToBoard`, `DueDatesParse`).

The model follows the code where it differs from what its names suggest:

- A checklist item is `completed` exactly when its name is "completed"
  (trello.py:84). This is reproduced literally.
- `Checklist.items` holds `ChecklistItem`s and `Board.stacks` holds a sequence
  of `Stack`s, whatever their annotations say. `Card.due_date` holds a parsed
  date or nothing.
- The background fallback is the word "green", not the hex value of green.

## Model

| member | source | states |
|---|---|---|
| `Trello.ColorTableIsHex` | trello_to_deck/trello.py:5-17 | every entry of the colour table, the `None` entry included, is six hex digits |
| `Trello.LabelColor` | trello_to_deck/trello.py:138 | `None` gives "b3bac5"; a table name gives its entry; any other name fails with KeyError (`UnknownLabelColor`) and has no default |
| `Trello.BackgroundColor` | trello_to_deck/trello.py:160-167 | a length of 24 gives "green"; otherwise a table name gives its entry and an unknown name gives "green"; the result is "green" or a hex colour and never the label default "b3bac5" |
| `Trello.LabelName` | trello_to_deck/trello.py:138 | the name is never empty, and a non-empty source name is kept |
| `Trello.DefaultLabelNamesDistinct` | trello_to_deck/trello.py:138 | unnamed labels at different positions get different default names |
| `Trello.LabelsFrom` | trello_to_deck/trello.py:136-141 | succeeds iff every colour is in the table; label i is built from source label i at position start+i; a failure names the first unknown colour |
| `Trello.BuildLabels` | trello_to_deck/trello.py:136-141 | same length and order as the source labels; label i keeps source id i and the source name when non-empty, else "Label " followed by i+1; colour `None` gives "b3bac5"; every colour is hex; fails iff some colour is outside the table |
| `Trello.ToChecklist` | trello_to_deck/trello.py:78-92 | keeps name and position; the items are a stable sort by position of all the source items; an item is completed iff its name is "completed" |
| `Trello.ChecklistsOfCard` | trello_to_deck/trello.py:74 | exactly the checklists whose card id matches, in input order |
| `Trello.GetChecklistByCard` | trello_to_deck/trello.py:73-97 | a stable sort by position of the converted matching checklists; holds a checklist iff it comes from a source checklist of that card; every item list is ordered by position |
| `Trello.GetCommentsByCard` | trello_to_deck/trello.py:100-103 | the texts of exactly the "commentCard" actions on that card, in action-log order |
| `Trello.GetLabelIds` | trello_to_deck/trello.py:105-106 | exactly the board labels whose id is in the card's id list, in board-label order; ids naming no label are dropped |
| `Trello.UploadedAttachments` | trello_to_deck/trello.py:126 | exactly the attachments flagged as uploads, in order, with file name, url and mime type copied |
| `Trello.ParseDue` | trello_to_deck/trello.py:117-119 | no due date gives no date; a due date gives the parser's result; a rejected string fails with `MalformedDueDate` |
| `Trello.ToCard` | trello_to_deck/trello.py:114-127 | building a card fails exactly when its due date is set and rejected |
| `Trello.ToCardFields` | trello_to_deck/trello.py:114-127 | a card whose due date is absent or parses is built; it copies name, closed flag, description, position and short url; it holds its own checklists, board labels, comments and uploads; its date is absent iff the due date is |
| `Trello.CardsOfList` | trello_to_deck/trello.py:110 | exactly the cards whose list id matches, in input order |
| `Trello.SelectedCardsParse` | trello_to_deck/trello.py:110-129 | building the cards of a list succeeds iff all their due dates parse; every built card comes from a card of that list; a failure names a card of the list with a rejected due date |
| `Trello.GetCardsByStack` | trello_to_deck/trello.py:109-132 | succeeds iff the list's due dates parse; the result is a stable sort by position of the built cards of that list, one per source card; a failure names a rejected due date |
| `Trello.OpenLists` | trello_to_deck/trello.py:143 | exactly the lists that are not closed, in input order |
| `Trello.ToStack` | trello_to_deck/trello.py:147-153 | keeps the list's name and position and holds the cards of that list |
| `Trello.OpenListsParse` | trello_to_deck/trello.py:143-158 | every card on an open list has a parseable due date iff this holds list by open list |
| `Trello.BuiltStacksFromOpenLists` | trello_to_deck/trello.py:143-158 | every built stack comes from a list that is not closed |
| `Trello.StackFailureNamesCard` | trello_to_deck/trello.py:143-158 | when a card on an open list has a rejected due date, building the stacks fails, and the error names such a card |
| `Trello.OpenListsBuild` | trello_to_deck/trello.py:143-158 | building the stacks succeeds iff every card on an open list has a parseable due date |
| `Trello.BuildStacks` | trello_to_deck/trello.py:143-158 | one stack per list that is not closed, and none for a closed list whatever its position; stable sort by position; each stack is its list's stack; fails only with a rejected due date on an open list |
| `Trello.ToBoard` | trello_to_deck/trello.py:135-172 | succeeds iff all label colours are in the table and every card on an open list has a parseable due date; an unknown label colour wins over a bad due date; the title is the export name; colour, labels and stacks come from the steps above, with the stacks built from the labels just built |
| `Seqs.Filter` | trello_to_deck/trello.py:74 | the result is no longer than the input; it holds only matching elements and every matching element |
| `Seqs.FilterIsSubsequence` | trello_to_deck/trello.py:74 | filtering keeps the input order |
| `Seqs.FilterMultiset` | trello_to_deck/trello.py:74 | a matching element keeps its multiplicity and every other element disappears |
| `Seqs.FilterUnique` | trello_to_deck/trello.py:74 | an order-preserving selection of matching elements that misses none equals the filter |
| `Seqs.FilterIsSelection` | trello_to_deck/trello.py:74 | the filter meets `IsSelectionOf` |
| `Seqs.SelectionIsFilter` | trello_to_deck/trello.py:74 | whatever meets `IsSelectionOf` is the filter |
| `Seqs.MapAll` | trello_to_deck/trello.py:113-129 | succeeds iff every element succeeds, then position by position; otherwise it fails with the first failing element's error |
| `Seqs.WithKey` | trello_to_deck/trello.py:76-96 | holds only elements of the input with the given key |
| `Seqs.InsertSorted` | trello_to_deck/trello.py:76-96 | inserting into an ordered sequence keeps it ordered |
| `Seqs.InsertMultiset` | trello_to_deck/trello.py:76-96 | inserting adds exactly the one element |
| `Seqs.InsertWithKey` | trello_to_deck/trello.py:76-96 | the inserted element goes in front of every element with its key, and no other key class changes |
| `Seqs.SortByKeyIsStableSort` | trello_to_deck/trello.py:76-96 | the insertion sort meets the stable-sort contract: ordered by key, a permutation, each key class in input order |
| `Seqs.StableSortUnique` | trello_to_deck/trello.py:76-96 | two results meeting the stable-sort contract for one input are equal |
| `Decimal.NatToString` | trello_to_deck/trello.py:138 | `%d` gives a non-empty string of digits with no leading zero |
| `Decimal.ParseNatToString` | trello_to_deck/trello.py:138 | reading the decimal rendering back gives the number |
| `Decimal.NatToStringInjective` | trello_to_deck/trello.py:138 | different numbers render differently |
| `TrelloScenarios.BackgroundExamples` | trello_to_deck/trello.py:160-167 | a 24-character value gives "green", "blue" gives "0000FF", "green" gives "49b675", "glorp" gives "green" |
| `TrelloScenarios.ThirdUnnamedLabel` | trello_to_deck/trello.py:136-141 | unnamed labels at positions 1 and 2 become "Label 2" and "Label 3"; colours `None`, red and sky resolve through the table |
| `TrelloScenarios.UnknownLabelColorAborts` | trello_to_deck/trello.py:138 | a label coloured "magenta" aborts the conversion with that key |
| `TrelloScenarios.ClosedListDroppedCardsSorted` | trello_to_deck/trello.py:143-158 | an open list at position 1 with cards at positions 2 and 1, beside a closed list at position 0, gives one stack with its cards in positions 1 and 2 |
| `TrelloScenarios.ScenarioOpenLists` | trello_to_deck/trello.py:143 | the closed list of that board is dropped |
| `TrelloScenarios.ScenarioCards` | trello_to_deck/trello.py:109-132 | that board's open list gets its two cards in position order |

## Left out

- The ISO 8601 parser (`dateutil.parser.isoparse`) is a parameter of type
  `string -> Option<DateTime>`, where `None` means rejected. Its parsing rules
  are not modelled.
- How the JSON is read into attribute objects. The input is plain records
  holding only the fields the conversion reads.
- Fractional Trello positions. Positions are integers; the code only compares them.
- Crashes from wrongly typed input: a `None` label name or background, a
  "commentCard" action without a card. The fields are taken as well typed.
- The laziness of Python's `filter` and `map`. They are modelled as
  sequence functions. `MapAll` keeps the order in which an exception surfaces.
- Running the conversion twice gives the same board. This holds because
  every member is a function, and no lemma states it.
- Strings are sequences of characters; there is no Unicode normalisation.
- GetCardsByStack: on failure the contract names one card with a rejected
  due date, not necessarily the first in card order. `MapAll` states the
  first-failure rule that the code follows.
- BuildStacks: on failure the contract names one card on an open list with a
  rejected due date, not the first one Python would reach.
- BuildLabels: on failure the contract names one unknown colour. `LabelsFrom`
  states that it is the first one.
- ToBoard: on failure the contract gives the kind of error, not which label
  or card caused it. `BuildLabels` and `BuildStacks` give that.
