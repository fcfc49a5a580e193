/**
 * One polling cycle of the scraper (src/index.ts, `main` after the browser
 * is set up): for every tracked record, in stored order, read the scraped
 * listing, record the item name once, and ask the bot for an alert when the
 * cheapest listing is strictly below the wanted price.
 *
 * The scraped page is an input: its title and the table rows, each row the
 * tab-separated cells of one table row. A cycle reads the pages through a
 * function of the item's position in the loop.
 */
module Polling {
  import opened Wrappers
  import opened Records
  import opened Utils
  import opened Database
  import opened Discord

  datatype Page = Page(title: string, rows: seq<seq<string>>)

  /**
   * How a cycle ends: normally, or cut short by the TypeError that reading a
   * missing cell raises (a header-only table, or a header without a "Price"
   * or "Location" column). Both carry the state reached.
   */
  datatype Outcome = Continue(w: World) | Aborted(w: World)

  // ---------------------------------------------------------------------
  // Reading the page
  // ---------------------------------------------------------------------

  /** The characters `String.prototype.trimEnd` removes: white space and line terminators. */
  predicate IsWhitespace(c: char)
  {
    c == '\t' || c == '\n' || c == '\U{000B}' || c == '\U{000C}' || c == '\r' || c == ' ' ||
    c == '\U{00A0}' || c == '\U{1680}' || ('\U{2000}' <= c <= '\U{200A}') ||
    c == '\U{2028}' || c == '\U{2029}' || c == '\U{202F}' || c == '\U{205F}' ||
    c == '\U{3000}' || c == '\U{FEFF}'
  }

  /** `s.trimEnd()`: the longest prefix that does not end in white space. */
  function TrimEnd(s: string): (r: string)
    ensures r <= s
    ensures r == [] || !IsWhitespace(r[|r| - 1])
    ensures forall i :: |r| <= i < |s| ==> IsWhitespace(s[i])
    decreases |s|
  {
    if s == [] || !IsWhitespace(s[|s| - 1]) then s else TrimEnd(s[..|s| - 1])
  }

  /** `title.split(" - ")[0].trimEnd()`. */
  function TitleItemName(title: string): string
  {
    var cut := IndexOf(title, " - ");
    TrimEnd(if cut > -1 then title[..cut] else title)
  }

  /** `row.indexOf(x)`: the first position holding `x`, or -1. */
  function IndexOfElem(row: seq<string>, x: string): (r: int)
    ensures -1 <= r < |row|
    ensures r >= 0 ==> row[r] == x && forall j :: 0 <= j < r ==> row[j] != x
    ensures r == -1 <==> x !in row
    decreases |row|
  {
    if row == [] then -1
    else if row[0] == x then 0
    else
      var k := IndexOfElem(row[1..], x);
      assert forall j :: 1 <= j < |row| ==> row[j] == row[1..][j - 1];
      if k == -1 then -1 else k + 1
  }

  function PriceColumn(page: Page): int
    requires page.rows != []
  {
    IndexOfElem(page.rows[0], "Price")
  }

  function LocationColumn(page: Page): int
    requires page.rows != []
  {
    IndexOfElem(page.rows[0], "Location")
  }

  /** Row 1 exists and holds a cell under both the "Price" and the "Location" headers. */
  predicate Readable(page: Page)
  {
    |page.rows| >= 2 &&
    0 <= PriceColumn(page) < |page.rows[1]| &&
    0 <= LocationColumn(page) < |page.rows[1]|
  }

  /** The cheapest listing's price, through `sanitizePrice`. */
  function ListedPrice(page: Page): Option<nat>
    requires Readable(page)
  {
    SanitizePrice(page.rows[1][PriceColumn(page)])
  }

  /** The cheapest listing's location, through `extractMapPosition`. */
  function ListedLocation(page: Page): string
    requires Readable(page)
  {
    ExtractMapPosition(page.rows[1][LocationColumn(page)])
  }

  /** `currentLowerPrice < item.wantedPrice`; NaN compares false. */
  predicate Alerts(item: Tracking, page: Page)
  {
    Readable(page) && ListedPrice(page).Some? && ListedPrice(page).value < item.wantedPrice
  }

  // ---------------------------------------------------------------------
  // One item, one cycle
  // ---------------------------------------------------------------------

  /** The name write, done only when the loaded record has no name. */
  function NameWrite(w: World, item: Tracking, itemName: string): World
  {
    if item.itemName.None? then World(SetItemName(w.table, item.id, item.uuid, itemName), w.outbox) else w
  }

  /** The loop body for one record and its scraped page. */
  function ItemStep(w: World, item: Tracking, page: Page): Outcome
  {
    var itemName := TitleItemName(page.title);
    var w1 := NameWrite(w, item, itemName);
    if page.rows == [] then Continue(w1)
    else if !Readable(page) then Aborted(w1)
    else if Alerts(item, page) then
      Continue(AlertEffect(w1, item.uuid, itemName, ListedPrice(page).value, item.id, ListedLocation(page)))
    else Continue(w1)
  }

  /** The loop over `items`, in order; the page for position `k` is `scrape(k)`. */
  function RunItems(w: World, items: seq<Tracking>, scrape: nat -> Page): Outcome
    decreases |items|
  {
    if items == [] then Continue(w)
    else match RunItems(w, items[..|items| - 1], scrape)
      case Aborted(w') => Aborted(w')
      case Continue(w') => ItemStep(w', items[|items| - 1], scrape(|items| - 1))
  }

  /** A cycle runs over the records read at its start. */
  function Cycle(w: World, scrape: nat -> Page): Outcome
  {
    RunItems(w, w.table, scrape)
  }

  /** `main`: read the records, stop on an empty store, then handle each record in turn. */
  method MainCycle(bot: Bot, scrape: nat -> Page) returns (completed: bool)
    modifies bot, bot.store
    ensures var r := Cycle(World(old(bot.store.table), old(bot.outbox)), scrape);
      World(bot.store.table, bot.outbox) == r.w && (completed <==> r.Continue?)
  {
    ghost var w0 := World(bot.store.table, bot.outbox);
    var data := bot.store.ObtainTrackedItems();
    if |data| == 0 {
      return true;
    }
    var k := 0;
    while k < |data|
      invariant 0 <= k <= |data| && data == w0.table
      invariant RunItems(w0, data[..k], scrape) == Continue(World(bot.store.table, bot.outbox))
    {
      RunItemsStep(w0, data, scrape, k);
      var ok := HandleItem(bot, data[k], scrape(k));
      if !ok {
        AbortPersists(w0, data, scrape, k + 1);
        return false;
      }
      k := k + 1;
    }
    assert data[..k] == data;
    return true;
  }

  /** The loop body: `false` when reading a missing cell cuts the cycle short. */
  method HandleItem(bot: Bot, item: Tracking, page: Page) returns (ok: bool)
    modifies bot, bot.store
    ensures var r := ItemStep(World(old(bot.store.table), old(bot.outbox)), item, page);
      World(bot.store.table, bot.outbox) == r.w && (ok <==> r.Continue?)
  {
    var itemName := TitleItemName(page.title);
    if item.itemName.None? {
      var _ := bot.store.UpdateTrackedItemName(item.id, item.uuid, itemName);
    }
    if page.rows == [] {
      return true;
    }
    var pricePosition := IndexOfElem(page.rows[0], "Price");
    var mapPosition := IndexOfElem(page.rows[0], "Location");
    if |page.rows| < 2 || !(0 <= pricePosition < |page.rows[1]|) || !(0 <= mapPosition < |page.rows[1]|) {
      return false;
    }
    var currentLowerPrice := SanitizePrice(page.rows[1][pricePosition]);
    var mapPos := ExtractMapPosition(page.rows[1][mapPosition]);
    if currentLowerPrice.Some? && currentLowerPrice.value < item.wantedPrice {
      bot.SendAlert(item.uuid, itemName, currentLowerPrice.value, item.id, mapPos);
    }
    return true;
  }

  /** A step of the loop after a prefix that ran normally handles the next record. */
  lemma {:induction false} RunItemsStep(w: World, items: seq<Tracking>, scrape: nat -> Page, k: nat)
    requires k < |items| && RunItems(w, items[..k], scrape).Continue?
    ensures RunItems(w, items[..k + 1], scrape) == ItemStep(RunItems(w, items[..k], scrape).w, items[k], scrape(k))
  {
    assert items[..k + 1][..k] == items[..k];
  }

  /** Once the loop is cut short, the later records are not handled. */
  lemma {:induction false} AbortPersists(w: World, items: seq<Tracking>, scrape: nat -> Page, k: nat)
    requires k <= |items| && RunItems(w, items[..k], scrape).Aborted?
    ensures RunItems(w, items, scrape) == RunItems(w, items[..k], scrape)
    decreases |items| - k
  {
    if k < |items| {
      assert items[..k + 1][..k] == items[..k];
      AbortPersists(w, items, scrape, k + 1);
    } else {
      assert items[..k] == items;
    }
  }

  // ---------------------------------------------------------------------
  // Properties of the page reading
  // ---------------------------------------------------------------------

  /** The name is the title text before the first " - ", without trailing white space. */
  lemma {:induction false} TitleNameBeforeSeparator(name: string, rest: string)
    requires forall j :: 0 <= j < |name| ==> !OccursAt(name + " - " + rest, " - ", j)
    ensures TitleItemName(name + " - " + rest) == TrimEnd(name)
  {
    var title := name + " - " + rest;
    assert title[|name|..|name| + 3] == " - ";
    assert OccursAt(title, " - ", |name|);
    assert title[..|name|] == name;
  }

  /** A title without the separator is taken whole, without trailing white space. */
  lemma {:induction false} TitleNameWithoutSeparator(title: string)
    requires !Contains(title, " - ")
    ensures TitleItemName(title) == TrimEnd(title)
  {
  }

  lemma {:induction false} TitleNameExample()
    ensures TitleItemName("Jellopy - NovaRO") == "Jellopy"
  {
    var name, rest := "Jellopy", "NovaRO";
    assert name + " - " + rest == "Jellopy - NovaRO";
    forall j | 0 <= j < |name| ensures !OccursAt(name + " - " + rest, " - ", j) {
      assert (name + " - " + rest)[j] == name[j] != ' ';
      assert (name + " - " + rest)[j..j + 3][0] == (name + " - " + rest)[j];
    }
    TitleNameBeforeSeparator(name, rest);
    assert !IsWhitespace(name[|name| - 1]);
  }

  // ---------------------------------------------------------------------
  // Properties of one step
  // ---------------------------------------------------------------------

  /** The name write keeps every key, threshold and snapshot, so every lookup answers the same. */
  lemma {:induction false} NameWriteKeepsLookups(w: World, item: Tracking, itemName: string, uuid: string, id: int)
    ensures var w1 := NameWrite(w, item, itemName);
      w1.outbox == w.outbox && |w1.table| == |w.table| &&
      (forall j :: 0 <= j < |w.table| ==>
        HasKey(w1.table[j], uuid, id) == HasKey(w.table[j], uuid, id) &&
        w1.table[j].wantedPrice == w.table[j].wantedPrice &&
        w1.table[j].lastNotification == w.table[j].lastNotification) &&
      FindIndex(w1.table, uuid, id) == FindIndex(w.table, uuid, id)
  {
    var w1 := NameWrite(w, item, itemName);
    SetItemNameFrame(w.table, item.id, item.uuid, itemName);
    SameKeysSameIndex(w.table, w1.table, uuid, id);
  }

  lemma {:induction false} SameKeysSameIndex(a: seq<Tracking>, b: seq<Tracking>, uuid: string, id: int)
    requires |a| == |b| && forall j :: 0 <= j < |a| ==> a[j].uuid == b[j].uuid && a[j].id == b[j].id
    ensures FindIndex(a, uuid, id) == FindIndex(b, uuid, id)
  {
    if FindIndex(a, uuid, id).Some? {
      assert HasKey(b[FindIndex(a, uuid, id).value], uuid, id);
    }
  }

  /**
   * The name is written exactly when the loaded record has none, on the
   * record found by the key, whatever the table holds; no other name changes.
   */
  lemma {:induction false} NameWrittenOnlyWhenMissing(w: World, item: Tracking, page: Page)
    ensures var r := ItemStep(w, item, page);
      |r.w.table| == |w.table| &&
      forall k :: 0 <= k < |w.table| ==>
        r.w.table[k].itemName ==
          (if item.itemName.None? && FindIndex(w.table, item.uuid, item.id) == Some(k)
           then Some(TitleItemName(page.title)) else w.table[k].itemName)
  {
    var itemName := TitleItemName(page.title);
    var w1 := NameWrite(w, item, itemName);
    SetItemNameFrame(w.table, item.id, item.uuid, itemName);
    var r := ItemStep(w, item, page);
    if r.w != w1 {
      SetNotificationFrame(w1.table, item.uuid, item.id, ListedPrice(page).value, ListedLocation(page));
    }
  }

  /** An empty table sends nothing and is not an error. */
  lemma {:induction false} EmptyTableNoAlert(w: World, item: Tracking, page: Page)
    requires page.rows == []
    ensures var r := ItemStep(w, item, page);
      r.Continue? && r.w.outbox == w.outbox
  {
  }

  /** The step is cut short exactly when a non-empty table has no readable price or location cell. */
  lemma {:induction false} AbortsExactlyWhenUnreadable(w: World, item: Tracking, page: Page)
    ensures ItemStep(w, item, page).Aborted? <==> page.rows != [] && !Readable(page)
  {
  }

  /**
   * A step sends at most one message, after the earlier ones, and only when
   * the listed price parses and is strictly below the wanted price; that
   * message is a direct message to the record's user.
   */
  lemma {:induction false} AlertOnlyBelowThreshold(w: World, item: Tracking, page: Page)
    ensures var r := ItemStep(w, item, page);
      |w.outbox| <= |r.w.outbox| <= |w.outbox| + 1 && r.w.outbox[..|w.outbox|] == w.outbox &&
      (|r.w.outbox| > |w.outbox| ==>
        Alerts(item, page) && r.w.outbox[|w.outbox|].DirectMessage? &&
        r.w.outbox[|w.outbox|].recipient == item.uuid)
  {
    var r := ItemStep(w, item, page);
    assert r.w.outbox[..|w.outbox|] == w.outbox;
  }

  /** A listed price equal to the wanted price does not alert, although the confirmation text says "lower or equal". */
  lemma {:induction false} EqualPriceDoesNotAlert(w: World, item: Tracking, page: Page)
    requires Readable(page) && ListedPrice(page) == Some(item.wantedPrice)
    ensures ItemStep(w, item, page).w.outbox == w.outbox
  {
    AlertOnlyBelowThreshold(w, item, page);
    var r := ItemStep(w, item, page);
    assert r.w.outbox[..|w.outbox|] == w.outbox;
  }

  /**
   * Below the threshold and not yet notified for this price and location,
   * the step sends one direct message whose price field reads back as the
   * listed price and whose location is the extracted one.
   */
  lemma {:induction false} AlertWhenBelowThreshold(w: World, item: Tracking, page: Page)
    requires Alerts(item, page)
    requires !AlertWasSent(w.table, item.uuid, item.id, ListedPrice(page).value, ListedLocation(page))
    ensures var r := ItemStep(w, item, page);
      r.Continue? && |r.w.outbox| == |w.outbox| + 1 &&
      var m := r.w.outbox[|w.outbox|];
      m.DirectMessage? && m.recipient == item.uuid &&
      SanitizePrice(m.embed.fields[0].value) == ListedPrice(page) &&
      m.embed.fields[1].value == ListedLocation(page)
  {
    var itemName := TitleItemName(page.title);
    var price, loc := ListedPrice(page).value, ListedLocation(page);
    var w1 := NameWrite(w, item, itemName);
    NameWriteKeepsLookups(w, item, itemName, item.uuid, item.id);
    assert AlertWasSent(w1.table, item.uuid, item.id, price, loc) == AlertWasSent(w.table, item.uuid, item.id, price, loc);
    AlertDelivered(w1, item.uuid, itemName, price, item.id, loc);
    AlertPriceReadsBack(itemName, price, item.id, loc);
  }

  /**
   * Deduplication across cycles: handling a record, then handling the
   * record as the step left it with the same page again, changes nothing
   * the second time.
   */
  lemma {:induction false} RepeatedPageIsQuiet(w: World, k: nat, page: Page)
    requires k < |w.table| && FindIndex(w.table, w.table[k].uuid, w.table[k].id) == Some(k)
    requires ItemStep(w, w.table[k], page).Continue?
    ensures var r := ItemStep(w, w.table[k], page);
      k < |r.w.table| && ItemStep(r.w, r.w.table[k], page) == r
  {
    var item := w.table[k];
    var itemName := TitleItemName(page.title);
    var w1 := NameWrite(w, item, itemName);
    var r := ItemStep(w, item, page);
    NameWriteKeepsLookups(w, item, itemName, item.uuid, item.id);
    SetItemNameFrame(w.table, item.id, item.uuid, itemName);
    assert w1.table[k].itemName.Some? && w1.table[k].wantedPrice == item.wantedPrice;
    assert HasKey(w1.table[k], item.uuid, item.id);
    if Alerts(item, page) {
      var price, loc := ListedPrice(page).value, ListedLocation(page);
      AlertLeavesSnapshot(w1, item.uuid, itemName, price, item.id, loc);
      SetNotificationFrame(w1.table, item.uuid, item.id, price, loc);
      var item' := r.w.table[k];
      assert item'.itemName.Some? && item'.wantedPrice == item.wantedPrice && HasKey(item', item.uuid, item.id);
      assert NameWrite(r.w, item', itemName) == r.w;
      assert AlertWasSent(r.w.table, item.uuid, item.id, price, loc);
    } else {
      assert r.w == w1;
      assert NameWrite(r.w, r.w.table[k], itemName) == r.w;
    }
  }

  /**
   * After a page that alerted, a page with a different price or location
   * that is still below the threshold alerts again.
   */
  lemma {:induction false} NewListingAlertsAgain(w: World, k: nat, page: Page, page': Page)
    requires k < |w.table| && FindIndex(w.table, w.table[k].uuid, w.table[k].id) == Some(k)
    requires Alerts(w.table[k], page) && Alerts(w.table[k], page')
    requires ListedPrice(page') != ListedPrice(page) || ListedLocation(page') != ListedLocation(page)
    ensures var r := ItemStep(w, w.table[k], page);
      k < |r.w.table| &&
      var r' := ItemStep(r.w, r.w.table[k], page');
      |r'.w.outbox| == |r.w.outbox| + 1 && r'.w.outbox[|r.w.outbox|].recipient == w.table[k].uuid
  {
    var item := w.table[k];
    var itemName := TitleItemName(page.title);
    var w1 := NameWrite(w, item, itemName);
    var price, loc := ListedPrice(page).value, ListedLocation(page);
    var r := ItemStep(w, item, page);
    NameWriteKeepsLookups(w, item, itemName, item.uuid, item.id);
    SetItemNameFrame(w.table, item.id, item.uuid, itemName);
    assert HasKey(w1.table[k], item.uuid, item.id);
    AlertLeavesSnapshot(w1, item.uuid, itemName, price, item.id, loc);
    SetNotificationFrame(w1.table, item.uuid, item.id, price, loc);
    var item' := r.w.table[k];
    assert item'.wantedPrice == item.wantedPrice && item'.uuid == item.uuid && item'.id == item.id;
    assert Alerts(item', page');
    var price', loc' := ListedPrice(page').value, ListedLocation(page');
    NameWriteKeepsLookups(r.w, item', TitleItemName(page'.title), item.uuid, item.id);
    assert !AlertWasSent(r.w.table, item.uuid, item.id, price', loc');
    AlertWhenBelowThreshold(r.w, item', page');
  }

  // ---------------------------------------------------------------------
  // Properties of a cycle
  // ---------------------------------------------------------------------

  /** With no records, a cycle does nothing. */
  lemma {:induction false} EmptyStoreDoesNothing(w: World, scrape: nat -> Page)
    requires w.table == []
    ensures Cycle(w, scrape) == Continue(w)
  {
  }

  /** The users of a sequence of records. */
  function UsersOf(items: seq<Tracking>): set<string>
  {
    set x | x in items :: x.uuid
  }

  /**
   * A cycle only appends to the outbox, and everything it appends is a
   * direct message to the user of one of the records read at its start.
   */
  lemma {:induction false} CycleAlertsOnlyTrackedUsers(w: World, items: seq<Tracking>, scrape: nat -> Page)
    ensures var r := RunItems(w, items, scrape);
      |w.outbox| <= |r.w.outbox| && r.w.outbox[..|w.outbox|] == w.outbox &&
      forall i :: |w.outbox| <= i < |r.w.outbox| ==>
        r.w.outbox[i].DirectMessage? && r.w.outbox[i].recipient in UsersOf(items)
    decreases |items|
  {
    if items != [] {
      var front, last := items[..|items| - 1], items[|items| - 1];
      CycleAlertsOnlyTrackedUsers(w, front, scrape);
      var mid := RunItems(w, front, scrape);
      assert UsersOf(front) <= UsersOf(items) && last.uuid in UsersOf(items) by {
        assert forall x :: x in front ==> x in items;
      }
      if mid.Continue? {
        StepAppendsAlertTo(w, mid.w, last, scrape(|items| - 1), UsersOf(front), UsersOf(items));
      }
    }
  }

  lemma {:induction false} StepAppendsAlertTo(w: World, mid: World, item: Tracking, page: Page,
                                              before: set<string>, after: set<string>)
    requires |w.outbox| <= |mid.outbox| && mid.outbox[..|w.outbox|] == w.outbox
    requires forall i :: |w.outbox| <= i < |mid.outbox| ==> mid.outbox[i].DirectMessage? && mid.outbox[i].recipient in before
    requires before <= after && item.uuid in after
    ensures var r := ItemStep(mid, item, page);
      |w.outbox| <= |r.w.outbox| && r.w.outbox[..|w.outbox|] == w.outbox &&
      forall i :: |w.outbox| <= i < |r.w.outbox| ==> r.w.outbox[i].DirectMessage? && r.w.outbox[i].recipient in after
  {
    var r := ItemStep(mid, item, page);
    AlertOnlyBelowThreshold(mid, item, page);
    assert r.w.outbox[..|w.outbox|] == r.w.outbox[..|mid.outbox|][..|w.outbox|];
    forall i | |w.outbox| <= i < |r.w.outbox|
      ensures r.w.outbox[i].DirectMessage? && r.w.outbox[i].recipient in after
    {
      if i < |mid.outbox| {
        assert r.w.outbox[i] == r.w.outbox[..|mid.outbox|][i];
      }
    }
  }

  /**
   * The end-to-end deduplication for one tracked item: a cycle whose page
   * lists the item below its threshold sends one alert; a second cycle on
   * the same page sends nothing and changes nothing.
   */
  lemma {:induction false} SecondCycleOnSamePageIsQuiet(w: World, page: Page)
    requires |w.table| == 1
    requires Alerts(w.table[0], page)
    requires w.table[0].lastNotification.None?
    ensures var c1 := Cycle(w, _ => page);
      c1.Continue? && |c1.w.outbox| == |w.outbox| + 1 &&
      Cycle(c1.w, _ => page) == c1
  {
    var scrape: nat -> Page := _ => page;
    var item := w.table[0];
    assert FindIndex(w.table, item.uuid, item.id) == Some(0);
    assert w.table[..0] == [];
    assert RunItems(w, w.table, scrape) == ItemStep(w, item, page);
    var r := ItemStep(w, item, page);
    assert !AlertWasSent(w.table, item.uuid, item.id, ListedPrice(page).value, ListedLocation(page));
    AlertWhenBelowThreshold(w, item, page);
    RepeatedPageIsQuiet(w, 0, page);
    NameWrittenOnlyWhenMissing(w, item, page);
    assert r.w.table[..0] == [];
    assert RunItems(r.w, r.w.table, scrape) == ItemStep(r.w, r.w.table[0], page);
  }

  /**
   * The rest of the scenario: a third cycle whose page lists a different
   * price or location, still below the threshold, sends exactly one new
   * alert to the record's user.
   */
  lemma {:induction false} NewListingAlertsInLaterCycle(w: World, page: Page, page': Page)
    requires |w.table| == 1
    requires Alerts(w.table[0], page) && Alerts(w.table[0], page')
    requires w.table[0].lastNotification.None?
    requires ListedPrice(page') != ListedPrice(page) || ListedLocation(page') != ListedLocation(page)
    ensures var c2 := Cycle(Cycle(w, _ => page).w, _ => page);
      var c3 := Cycle(c2.w, _ => page');
      c3.Continue? && |c3.w.outbox| == |c2.w.outbox| + 1 &&
      c3.w.outbox[|c2.w.outbox|].DirectMessage? && c3.w.outbox[|c2.w.outbox|].recipient == w.table[0].uuid
  {
    var scrape: nat -> Page := _ => page;
    var scrape': nat -> Page := _ => page';
    SecondCycleOnSamePageIsQuiet(w, page);
    var item := w.table[0];
    assert FindIndex(w.table, item.uuid, item.id) == Some(0);
    assert w.table[..0] == [];
    assert RunItems(w, w.table, scrape) == ItemStep(w, item, page);
    var c1 := Cycle(w, scrape);
    NameWrittenOnlyWhenMissing(w, item, page);
    assert c1.w.table[..0] == [];
    assert RunItems(c1.w, c1.w.table, scrape') == ItemStep(c1.w, c1.w.table[0], page');
    NewListingAlertsAgain(w, 0, page, page');
    AlertOnlyBelowThreshold(c1.w, c1.w.table[0], page');
  }

  // ---------------------------------------------------------------------
  // Unique keys
  // ---------------------------------------------------------------------

  /** One step keeps unique keys unique: the name write and the alert only touch names and snapshots. */
  lemma {:induction false} StepKeepsKeysUnique(w: World, item: Tracking, page: Page)
    requires UniqueKeys(w.table)
    ensures UniqueKeys(ItemStep(w, item, page).w.table)
  {
    var itemName := TitleItemName(page.title);
    var w1 := NameWrite(w, item, itemName);
    if item.itemName.None? {
      SetItemNameKeepsKeysUnique(w.table, item.id, item.uuid, itemName);
    }
    if page.rows != [] && Readable(page) && Alerts(item, page) {
      AlertKeepsKeysUnique(w1, item.uuid, itemName, ListedPrice(page).value, item.id, ListedLocation(page));
    }
  }

  /** The loop over any records keeps unique keys unique, whether it completes or is cut short. */
  lemma {:induction false} RunItemsKeepsKeysUnique(w: World, items: seq<Tracking>, scrape: nat -> Page)
    requires UniqueKeys(w.table)
    ensures UniqueKeys(RunItems(w, items, scrape).w.table)
    decreases |items|
  {
    if items != [] {
      RunItemsKeepsKeysUnique(w, items[..|items| - 1], scrape);
      var mid := RunItems(w, items[..|items| - 1], scrape);
      if mid.Continue? {
        StepKeepsKeysUnique(mid.w, items[|items| - 1], scrape(|items| - 1));
      }
    }
  }

  /** A whole cycle keeps unique keys unique, so the store lemmas that need them apply after it. */
  lemma {:induction false} CycleKeepsKeysUnique(w: World, scrape: nat -> Page)
    requires UniqueKeys(w.table)
    ensures UniqueKeys(Cycle(w, scrape).w.table)
  {
    RunItemsKeepsKeysUnique(w, w.table, scrape);
  }
}
