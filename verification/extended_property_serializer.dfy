/**
 * The source-data serializer for properties (`ExtendedPropertySerializer`):
 * it writes a property as a hash whose `values_from` key carries the
 * parent's friendly id, and reads such hashes back into property
 * attributes.
 */
module ExtendedPropertySerializer {
  import opened Wrappers
  import opened Properties

  /** A hash value: Ruby `nil` or a string. */
  datatype Value = Nil | Str(s: string)

  /** A string-keyed source-data hash. */
  type Hash = map<string, Value>

  /** The attribute set of a property record, as passed to `Property.new` or `insert_all`. */
  datatype Attributes = Attributes(name: Value, friendlyId: Value, parentFriendlyId: Value)

  /** A property built by `Property.new`, not yet saved: only its attribute columns are set. */
  datatype NewProperty = NewProperty(attributes: Attributes)

  /** The three keys a serialized property carries. */
  const SerializedKeys: set<string> := {"name", "friendly_id", "values_from"}

  /** `hash[key]`: the value, or `nil` for a missing key. */
  function Lookup(h: Hash, key: string): Value {
    if key in h then h[key] else Nil
  }

  /** An optional string as a hash value. */
  function OptionValue(o: Option<string>): Value {
    match o
    case None => Nil
    case Some(s) => Str(s)
  }

  /** The hash `serialize` writes for a set of attributes: `parent_friendly_id` is renamed `values_from`. */
  function HashOf(a: Attributes): (h: Hash)
    ensures h.Keys == SerializedKeys
  {
    map["name" := a.name, "friendly_id" := a.friendlyId, "values_from" := a.parentFriendlyId]
  }

  /** `serialize`: the property's derived name, its friendly id and its parent's friendly id. */
  function Serialize(p: Property): (h: Hash)
    ensures h.Keys == SerializedKeys
    ensures h["values_from"] == OptionValue(p.parentFriendlyId)
    ensures h["name"] == Str(Root(p).storedName)
  {
    HashOf(Attributes(Str(Name(p)), Str(p.friendlyId), OptionValue(p.parentFriendlyId)))
  }

  /** `attributes_from`: reads `values_from` back as the parent's friendly id; missing keys read as nil. */
  function AttributesFrom(h: Hash): (a: Attributes)
    ensures a.parentFriendlyId == Lookup(h, "values_from")
    ensures a.name == Lookup(h, "name") && a.friendlyId == Lookup(h, "friendly_id")
  {
    Attributes(Lookup(h, "name"), Lookup(h, "friendly_id"), Lookup(h, "values_from"))
  }

  /** Renaming and renaming back restores any attribute set. */
  lemma AttributesRoundTrip(a: Attributes)
    ensures AttributesFrom(HashOf(a)) == a
  {
  }

  /** A hash with exactly the serialized keys is restored by reading it and writing it again. */
  lemma HashRoundTrip(h: Hash)
    requires h.Keys == SerializedKeys
    ensures HashOf(AttributesFrom(h)) == h
  {
    var g := HashOf(AttributesFrom(h));
    assert forall k :: k in g ==> g[k] == h[k];
  }

  /**
   * Reading back a serialized property keeps its friendly id and parent
   * key; its name comes back as the derived name, which for an abstract
   * property is the parent's.
   */
  lemma SerializeRoundTrip(p: Property)
    ensures AttributesFrom(Serialize(p)).friendlyId == Str(p.friendlyId)
    ensures AttributesFrom(Serialize(p)).parentFriendlyId == OptionValue(p.parentFriendlyId)
    ensures AttributesFrom(Serialize(p)).name == Str(Name(p))
    ensures IsAbstract(p) ==> AttributesFrom(Serialize(p)).name == Str(Name(p.parent.value))
  {
  }

  /** `deserialize`: an unsaved property whose attributes are read from the hash. */
  function Deserialize(h: Hash): (r: NewProperty)
    ensures r.attributes == AttributesFrom(h)
    ensures r.attributes.parentFriendlyId == Lookup(h, "values_from")
    ensures HashOf(r.attributes) == h <==> h.Keys == SerializedKeys
  {
    var a := AttributesFrom(h);
    assert h.Keys == SerializedKeys ==> HashOf(a) == h by {
      if h.Keys == SerializedKeys { HashRoundTrip(h); }
    }
    NewProperty(a)
  }

  /** `deserialize_for_insert_all`: the attribute rows of each hash, in order. */
  method DeserializeForInsertAll(hashes: seq<Hash>) returns (rows: seq<Attributes>)
    ensures |rows| == |hashes|
    ensures forall i :: 0 <= i < |hashes| ==> rows[i] == AttributesFrom(hashes[i])
    ensures forall i :: 0 <= i < |hashes| ==> rows[i].parentFriendlyId == Lookup(hashes[i], "values_from")
  {
    rows := [];
    for i := 0 to |hashes|
      invariant |rows| == i
      invariant forall j :: 0 <= j < i ==> rows[j] == AttributesFrom(hashes[j])
    {
      rows := rows + [AttributesFrom(hashes[i])];
    }
  }
}
