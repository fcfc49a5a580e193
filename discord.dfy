/**
 * The notification client (src/bot.ts): the three slash commands and the
 * deduplicated price alert. Discord is modelled as an outbox, the sequence
 * of messages the bot has sent (ephemeral command replies and direct
 * messages), and the bot shares one `BDService` with the polling loop.
 */
module Discord {
  import opened Wrappers
  import opened Records
  import opened Utils
  import opened Database

  // ---------------------------------------------------------------------
  // Messages
  // ---------------------------------------------------------------------

  datatype EmbedField = EmbedField(name: string, value: string)

  /** The parts of an embed the bot fills in; colour, URLs and images are left out. */
  datatype Embed = Embed(
    title: Option<string>,
    author: Option<string>,
    description: Option<string>,
    fields: seq<EmbedField>
  )

  datatype Message =
    | DirectMessage(recipient: string, embed: Embed)   // `user.send({ embeds: [embed] })`
    | TextReply(recipient: string, content: string)    // ephemeral `interaction.reply({ content })`
    | EmbedReply(recipient: string, embed: Embed)      // ephemeral `interaction.reply({ embeds })`

  /** `createEmbed`: the item name as author and the three alert fields. */
  function CreateEmbed(itemName: string, itemId: int, currentPrice: string, mapPos: string): Embed
  {
    Embed(None, Some(itemName), None, [
      EmbedField("Current Lower Price", currentPrice + "z"),
      EmbedField("Map Navigation", mapPos),
      EmbedField("Open Stall", "@ws " + IntToString(itemId))
    ])
  }

  function TrackReplyText(id: int, wantedPrice: int): string
  {
    "Tracking item with ID " + IntToString(id)
      + ", and getting notifications when prices are lower or equal to "
      + FormatPrice(wantedPrice) + "z."
  }

  function UntrackReplyText(id: int): string
  {
    "Untracking item with ID " + IntToString(id) + "."
  }

  function TrackedEmbed(listing: string): Embed
  {
    Embed(Some("Tracked Items"), None, Some(listing), [])
  }

  /**
   * An incoming interaction. `id` and `price` are the integer options; the
   * gateway insists on them for the commands that declare them, and the
   * other commands ignore them.
   */
  datatype Interaction =
    | NonCommand
    | Command(commandName: string, user: string, id: int, price: int)

  /** The state the bot acts on: the shared table and the outbox. */
  datatype World = World(table: seq<Tracking>, outbox: seq<Message>)

  // ---------------------------------------------------------------------
  // Effects, as functions of the state
  // ---------------------------------------------------------------------

  /** The effect of `sendAlert(uuid, itemName, currentPrice, itemId, mapPos)`. */
  function AlertEffect(w: World, uuid: string, itemName: string, currentPrice: int, itemId: int, mapPos: string): World
  {
    if AlertWasSent(w.table, uuid, itemId, currentPrice, mapPos) then w
    else World(
      SetNotification(w.table, uuid, itemId, currentPrice, mapPos),
      w.outbox + [DirectMessage(uuid, CreateEmbed(itemName, itemId, FormatPrice(currentPrice), mapPos))])
  }

  /** The record the `track` command upserts. */
  function NewTracking(id: int, uuid: string, wantedPrice: int): Tracking
  {
    Tracking(id, None, uuid, wantedPrice, None)
  }

  /**
   * The effect of one interaction on the `interactionCreate` handler. Every
   * store result is truthy (an empty array too), so each known command
   * replies.
   */
  function CommandEffect(w: World, interaction: Interaction): (r: World)
    ensures w.outbox <= r.outbox && |r.outbox| <= |w.outbox| + 1
    ensures interaction.NonCommand? ==> r == w
    ensures interaction.Command? && interaction.commandName !in {"track", "untrack", "tracked"} ==> r == w
  {
    match interaction
    case NonCommand => w
    case Command(name, user, id, price) =>
      if name == "track" then
        World(Upsert(w.table, NewTracking(id, user, price)), w.outbox + [TextReply(user, TrackReplyText(id, price))])
      else if name == "untrack" then
        World(DeleteOne(w.table, id, user), w.outbox + [TextReply(user, UntrackReplyText(id))])
      else if name == "tracked" then
        World(w.table, w.outbox + [EmbedReply(user, TrackedEmbed(Listing(ForUser(w.table, user))))])
      else w
  }

  // ---------------------------------------------------------------------
  // The bot
  // ---------------------------------------------------------------------

  class Bot {
    const store: BDService
    var outbox: seq<Message>

    constructor (store: BDService)
      ensures this.store == store && outbox == []
    {
      this.store := store;
      outbox := [];
    }

    /** `onCommand`'s handler for one interaction. */
    method OnCommand(interaction: Interaction)
      modifies this, store
      ensures World(store.table, outbox) == CommandEffect(World(old(store.table), old(outbox)), interaction)
    {
      if !interaction.Command? {
        return;
      }
      var name, user, id := interaction.commandName, interaction.user, interaction.id;
      if name == "track" {
        var wantedPrice := interaction.price;
        var newTrackedItem := NewTracking(id, user, wantedPrice);
        var _ := store.InsertTrackedItem(newTrackedItem);
        outbox := outbox + [TextReply(user, TrackReplyText(id, wantedPrice))];
      } else if name == "untrack" {
        var _ := store.DeleteTrackedItem(id, user);
        outbox := outbox + [TextReply(user, UntrackReplyText(id))];
      } else if name == "tracked" {
        var items := store.GetTrackedItems(user);
        var listing := ListTrackedItems(items);
        outbox := outbox + [EmbedReply(user, TrackedEmbed(listing))];
      }
    }

    /** `sendAlert`: check the snapshot, send the direct message, then record the snapshot. */
    method SendAlert(uuid: string, itemName: string, currentPrice: int, itemId: int, mapPos: string)
      modifies this, store
      ensures World(store.table, outbox) ==
        AlertEffect(World(old(store.table), old(outbox)), uuid, itemName, currentPrice, itemId, mapPos)
    {
      var sent := store.CheckIfAlertWasSent(uuid, itemId, currentPrice, mapPos);
      if sent {
        return;
      }
      var embed := CreateEmbed(itemName, itemId, FormatPrice(currentPrice), mapPos);
      outbox := outbox + [DirectMessage(uuid, embed)];
      var _ := store.UpdateTrackedWithNotification(currentPrice, mapPos, uuid, itemId);
    }
  }

  // ---------------------------------------------------------------------
  // Properties of the alert path
  // ---------------------------------------------------------------------

  /** An alert already recorded is suppressed: nothing is sent and the store is untouched. */
  lemma {:induction false} AlertSuppressed(w: World, uuid: string, itemName: string, price: int, itemId: int, mapPos: string)
    requires AlertWasSent(w.table, uuid, itemId, price, mapPos)
    ensures AlertEffect(w, uuid, itemName, price, itemId, mapPos) == w
  {
  }

  /**
   * Otherwise exactly one direct message goes to the user, carrying the
   * formatted price with its "z", the location verbatim and the stall
   * command, and the snapshot is recorded.
   */
  lemma {:induction false} AlertDelivered(w: World, uuid: string, itemName: string, price: int, itemId: int, mapPos: string)
    requires !AlertWasSent(w.table, uuid, itemId, price, mapPos)
    ensures var r := AlertEffect(w, uuid, itemName, price, itemId, mapPos);
      |r.outbox| == |w.outbox| + 1 && r.outbox[..|w.outbox|] == w.outbox &&
      var m := r.outbox[|w.outbox|];
      m.DirectMessage? && m.recipient == uuid && m.embed.author == Some(itemName) &&
      |m.embed.fields| == 3 &&
      m.embed.fields[0].value == FormatPrice(price) + "z" &&
      m.embed.fields[1].value == mapPos &&
      m.embed.fields[2].value == "@ws " + IntToString(itemId) &&
      r.table == SetNotification(w.table, uuid, itemId, price, mapPos)
  {
    var r := AlertEffect(w, uuid, itemName, price, itemId, mapPos);
    assert r.outbox[..|w.outbox|] == w.outbox;
  }

  /** The price shown in an alert reads back, through the price filter, as the alerted price. */
  lemma {:induction false} AlertPriceReadsBack(itemName: string, price: nat, itemId: int, mapPos: string)
    ensures SanitizePrice(CreateEmbed(itemName, itemId, FormatPrice(price), mapPos).fields[0].value) == Some(price)
  {
    FormatSanitizeRoundTrip(price);
  }

  /** After an alert for an existing record, in either branch, the record's snapshot is the alerted pair. */
  lemma {:induction false} AlertLeavesSnapshot(w: World, uuid: string, itemName: string, price: int, itemId: int, mapPos: string)
    requires FindIndex(w.table, uuid, itemId).Some?
    ensures var r := AlertEffect(w, uuid, itemName, price, itemId, mapPos);
      FindIndex(r.table, uuid, itemId) == FindIndex(w.table, uuid, itemId) &&
      r.table[FindIndex(w.table, uuid, itemId).value].lastNotification == Some(Notification(price, mapPos))
  {
    var k := FindIndex(w.table, uuid, itemId).value;
    var r := AlertEffect(w, uuid, itemName, price, itemId, mapPos);
    if !AlertWasSent(w.table, uuid, itemId, price, mapPos) {
      NotifiedThenAlertWasSent(w.table, uuid, itemId, price, mapPos);
      assert |r.table| == |w.table| && HasKey(r.table[k], uuid, itemId);
      assert forall j :: 0 <= j < k ==> r.table[j] == w.table[j];
    }
  }

  /**
   * Deduplication: for an existing record, an alert repeated with the same
   * price and location changes nothing more: two calls send at most one
   * message.
   */
  lemma {:induction false} AlertIdempotent(w: World, uuid: string, itemName: string, price: int, itemId: int, mapPos: string)
    requires FindIndex(w.table, uuid, itemId).Some?
    ensures var w1 := AlertEffect(w, uuid, itemName, price, itemId, mapPos);
      AlertEffect(w1, uuid, itemName, price, itemId, mapPos) == w1 &&
      |w1.outbox| <= |w.outbox| + 1
  {
    var w1 := AlertEffect(w, uuid, itemName, price, itemId, mapPos);
    AlertLeavesSnapshot(w, uuid, itemName, price, itemId, mapPos);
    assert AlertWasSent(w1.table, uuid, itemId, price, mapPos);
  }

  /** After an alert, a different price or location sends exactly one new message. */
  lemma {:induction false} AlertOnChange(w: World, uuid: string, itemName: string, price: int, itemId: int, mapPos: string,
                                         itemName': string, price': int, mapPos': string)
    requires FindIndex(w.table, uuid, itemId).Some?
    requires price' != price || mapPos' != mapPos
    ensures var w1 := AlertEffect(w, uuid, itemName, price, itemId, mapPos);
      var w2 := AlertEffect(w1, uuid, itemName', price', itemId, mapPos');
      |w2.outbox| == |w1.outbox| + 1 && w2.outbox[|w1.outbox|].DirectMessage? &&
      w2.outbox[|w1.outbox|].recipient == uuid
  {
    var w1 := AlertEffect(w, uuid, itemName, price, itemId, mapPos);
    AlertLeavesSnapshot(w, uuid, itemName, price, itemId, mapPos);
    assert !AlertWasSent(w1.table, uuid, itemId, price', mapPos');
  }

  /**
   * Without a matching record the check answers false, so every call sends
   * a message, and the snapshot write matches nothing.
   */
  lemma {:induction false} AlertWithoutRecord(w: World, uuid: string, itemName: string, price: int, itemId: int, mapPos: string)
    requires forall j :: 0 <= j < |w.table| ==> !HasKey(w.table[j], uuid, itemId)
    ensures var r := AlertEffect(w, uuid, itemName, price, itemId, mapPos);
      r.table == w.table && |r.outbox| == |w.outbox| + 1
  {
  }

  // ---------------------------------------------------------------------
  // Properties of the commands
  // ---------------------------------------------------------------------

  /** No command touches the records of anyone but the caller. */
  lemma {:induction false} CommandsTouchOnlyCaller(w: World, interaction: Interaction, other: string)
    requires interaction.Command? && interaction.user != other
    ensures ForUser(CommandEffect(w, interaction).table, other) == ForUser(w.table, other)
  {
    var name, user, id, price := interaction.commandName, interaction.user, interaction.id, interaction.price;
    if name == "track" {
      var item := NewTracking(id, user, price);
      match FindIndex(w.table, user, id)
      case Some(k) => ForUserUpdateOther(w.table, k, w.table[k].(wantedPrice := price), other);
      case None => {
        ForUserAppend(w.table, [item], other);
        assert ForUser([item], other) == [] + ForUser([], other);
        assert ForUser(w.table, other) + [] == ForUser(w.table, other);
      }
    } else if name == "untrack" {
      match FindIndex(w.table, user, id)
      case Some(k) => ForUserDeleteOther(w.table, k, other);
      case None => {}
    }
  }

  /**
   * `track` leaves exactly one record for (caller, id), holding the new
   * threshold; a pre-existing record keeps its name and snapshot; keys stay
   * unique; the reply confirms the threshold.
   */
  lemma {:induction false} TrackStoresThreshold(w: World, user: string, id: int, price: int)
    requires UniqueKeys(w.table)
    ensures var r := CommandEffect(w, Command("track", user, id, price));
      UniqueKeys(r.table) &&
      (exists k :: 0 <= k < |r.table| && HasKey(r.table[k], user, id)) &&
      (forall k :: 0 <= k < |r.table| && HasKey(r.table[k], user, id) ==> r.table[k].wantedPrice == price) &&
      r.outbox == w.outbox + [TextReply(user, TrackReplyText(id, price))]
    ensures FindIndex(w.table, user, id).Some? ==>
      var k := FindIndex(w.table, user, id).value;
      var r := CommandEffect(w, Command("track", user, id, price));
      |r.table| == |w.table| &&
      r.table[k].itemName == w.table[k].itemName &&
      r.table[k].lastNotification == w.table[k].lastNotification
    ensures FindIndex(w.table, user, id).None? ==>
      CommandEffect(w, Command("track", user, id, price)).table == w.table + [Tracking(id, None, user, price, None)]
  {
    UpsertKeepsKeysUnique(w.table, NewTracking(id, user, price));
    if FindIndex(w.table, user, id).Some? {
      UpsertExisting(w.table, NewTracking(id, user, price));
    }
  }

  /**
   * `untrack` leaves every record except the caller's (caller, id) one, in
   * order, and replies; no record for the pair remains.
   */
  lemma {:induction false} UntrackRemovesOnlyThatRecord(w: World, user: string, id: int, price: int)
    requires UniqueKeys(w.table)
    ensures var r := CommandEffect(w, Command("untrack", user, id, price));
      r.table == WithoutKey(w.table, user, id) &&
      UniqueKeys(r.table) &&
      (forall j :: 0 <= j < |r.table| ==> !HasKey(r.table[j], user, id)) &&
      r.outbox == w.outbox + [TextReply(user, UntrackReplyText(id))]
  {
    DeleteOneRemovesKey(w.table, id, user);
    DeleteOneLeavesNoMatch(w.table, id, user);
  }

  /**
   * `tracked` changes no record and replies with the header and one line
   * per record of the caller, in stored order; those are exactly the
   * caller's records.
   */
  lemma {:induction false} TrackedListsOnlyCaller(w: World, user: string, id: int, price: int)
    ensures var r := CommandEffect(w, Command("tracked", user, id, price));
      r.table == w.table && |r.outbox| == |w.outbox| + 1 &&
      r.outbox[|w.outbox|] == EmbedReply(user, TrackedEmbed(ListingHeader + Lines(ForUser(w.table, user)))) &&
      forall x :: x in ForUser(w.table, user) <==> x in w.table && x.uuid == user
  {
    ForUserExactly(w.table, user);
  }

  // ---------------------------------------------------------------------
  // Unique keys
  // ---------------------------------------------------------------------

  /** An alert, sent or suppressed, keeps unique keys unique. */
  lemma {:induction false} AlertKeepsKeysUnique(w: World, uuid: string, itemName: string, price: int, itemId: int, mapPos: string)
    requires UniqueKeys(w.table)
    ensures UniqueKeys(AlertEffect(w, uuid, itemName, price, itemId, mapPos).table)
  {
    SetNotificationKeepsKeysUnique(w.table, uuid, itemId, price, mapPos);
  }

  /** Every interaction keeps unique keys unique. */
  lemma {:induction false} CommandKeepsKeysUnique(w: World, interaction: Interaction)
    requires UniqueKeys(w.table)
    ensures UniqueKeys(CommandEffect(w, interaction).table)
  {
    if interaction.Command? {
      var name, user, id, price := interaction.commandName, interaction.user, interaction.id, interaction.price;
      if name == "track" {
        UpsertKeepsKeysUnique(w.table, NewTracking(id, user, price));
      } else if name == "untrack" {
        DeleteOneLeavesNoMatch(w.table, id, user);
      }
    }
  }
}
