/**
 * The DynamoDB table both handlers share, seen through the two helpers the
 * handlers wrap around boto3: `getDynamoData` (read one item by its `id`)
 * and `putItemDynamoDB` (write one item). An item is a map from attribute
 * name to a deserialised value.
 */
module Table {
  import opened Wrappers

  /** A deserialised attribute value: text, a number, or `None` (DynamoDB NULL). */
  datatype Value = Str(text: string) | Num(number: int) | Null

  type Item = map<string, Value>

  /** What `getDynamoData` reports: the call failed with a message, found an item, or found none. */
  datatype Lookup = LookupFailed(message: string) | Found(item: Item) | Missing

  /** `r['data']` is truthy: an item was found and it is not the empty dict. */
  predicate HasData(l: Lookup) {
    l.Found? && l.item != map[]
  }

  /** `{k: v for k, v in item.items() if v != ""}`: the attributes actually sent to the table. */
  function Serialized(item: Item): (r: Item)
    ensures forall k :: k in r <==> k in item && item[k] != Str("")
    ensures forall k :: k in r ==> r[k] == item[k]
  {
    map k | k in item && item[k] != Str("") :: item[k]
  }

  /** Filtering twice is filtering once, and what is sent never holds an empty text. */
  lemma SerializedIdempotent(item: Item)
    ensures Serialized(Serialized(item)) == Serialized(item)
    ensures forall k :: k in Serialized(item) ==> Serialized(item)[k] != Str("")
  {
  }

  /** A stored item carries its own key as its `id` attribute. */
  predicate KeyedBy(item: Item, key: string) {
    "id" in item && item["id"] == Str(key)
  }

  /** The outcome scripted for the next call: `Some(m)` makes it raise with message `m`. */
  function NextFault(faults: seq<Option<string>>): Option<string> {
    if |faults| == 0 then None else faults[0]
  }

  /** The outcome scripted for the call `n` places ahead. */
  function FaultAt(faults: seq<Option<string>>, n: nat): Option<string> {
    if n < |faults| then faults[n] else None
  }

  /** The script after `n` calls have used it up. */
  function Drop(faults: seq<Option<string>>, n: nat): (r: seq<Option<string>>)
    ensures NextFault(r) == FaultAt(faults, n)
  {
    if n <= |faults| then faults[n..] else []
  }

  /** Using the script up one call at a time is using it up all at once. */
  lemma DropStep(faults: seq<Option<string>>, n: nat)
    ensures Drop(Drop(faults, n), 1) == Drop(faults, n + 1)
  {
    if n < |faults| {
      assert faults[n..][1..] == faults[n + 1..];
    }
  }

  /**
   * The table: its items by key, the script of collaborator faults that the
   * coming calls will meet (a call with no script entry left succeeds), and
   * the history of the keys looked up and of the items written, each in the
   * order the calls were made.
   */
  class Store {
    var items: map<string, Item>
    var faults: seq<Option<string>>
    ghost var lookups: seq<string>
    ghost var writes: seq<Item>

    ghost predicate Valid()
      reads this
    {
      forall k :: k in items ==> KeyedBy(items[k], k)
    }

    constructor (items: map<string, Item>, faults: seq<Option<string>>)
      requires forall k :: k in items ==> KeyedBy(items[k], k)
      ensures Valid()
      ensures this.items == items && this.faults == faults && lookups == [] && writes == []
    {
      this.items := items;
      this.faults := faults;
      lookups := [];
      writes := [];
    }

    /** `getDynamoData(DYNAMODB_TABLE, 'id', key)`. */
    method Get(key: string) returns (r: Lookup)
      requires Valid()
      modifies this
      ensures Valid()
      ensures items == old(items)
      ensures faults == Drop(old(faults), 1)
      ensures lookups == old(lookups) + [key] && writes == old(writes)
      ensures r == match NextFault(old(faults))
                   case Some(m) => LookupFailed(m)
                   case None => if key in items then Found(items[key]) else Missing
      ensures HasData(r) <==> NextFault(old(faults)).None? && key in items
    {
      var fault := NextFault(faults);
      faults := Drop(faults, 1);
      lookups := lookups + [key];
      if fault.Some? {
        r := LookupFailed(fault.value);
      } else if key in items {
        assert "id" in items[key];
        r := Found(items[key]);
      } else {
        r := Missing;
      }
    }

    /** `put_item` of an item that names its key in `id`: overwrites whatever the key held. */
    method Put(item: Item) returns (failure: Option<string>)
      requires Valid()
      requires "id" in item && item["id"].Str?
      modifies this
      ensures Valid()
      ensures faults == Drop(old(faults), 1)
      ensures lookups == old(lookups) && writes == old(writes) + [item]
      ensures failure == NextFault(old(faults))
      ensures items == if failure.Some? then old(items) else old(items)[item["id"].text := item]
    {
      failure := NextFault(faults);
      faults := Drop(faults, 1);
      writes := writes + [item];
      if failure.None? {
        items := items[item["id"].text := item];
      }
    }
  }

  /** In a valid table a found item is never empty, so "has data" means "the key is present". */
  lemma FoundHasData(items: map<string, Item>, key: string)
    requires forall k :: k in items ==> KeyedBy(items[k], k)
    ensures HasData(if key in items then Found(items[key]) else Missing) <==> key in items
  {
    if key in items {
      assert "id" in items[key];
    }
  }
}
