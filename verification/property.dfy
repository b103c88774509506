/**
 * Attribute properties and their parent delegation (`Property` model):
 * an abstract property borrows its gid, name and values from its parent,
 * and a concrete property has its own.
 */
module Properties {
  import opened Wrappers
  import opened Strings

  /** The namespace that qualifies attribute gids. */
  const AttributeGidPrefix: string := "gid://shopify/TaxonomyAttribute/"

  /**
   * A stored property with its `parent` association loaded.
   * `parentFriendlyId` is the foreign-key column; `parent` is the record it
   * resolves to, `None` when the key is nil or names no property. Being an
   * inductive value, the parent chain is finite and acyclic.
   */
  datatype Property = Property(
    id: int,
    friendlyId: string,
    storedName: string,
    parentFriendlyId: Option<string>,
    parent: Option<Property>,
    ownValues: seq<string>)

  /** `abstract?`: the parent association is present. */
  predicate IsAbstract(p: Property) {
    p.parent.Some?
  }

  /** The `concrete` scope: the parent foreign key is nil. */
  predicate InConcreteScope(p: Property) {
    p.parentFriendlyId.None?
  }

  /** The `abstract` scope: the parent foreign key is set. */
  predicate InAbstractScope(p: Property) {
    p.parentFriendlyId.Some?
  }

  /** The `concrete` scope of a collection of properties. */
  function ConcreteScope(ps: set<Property>): (r: set<Property>)
    ensures forall p :: p in r <==> p in ps && p.parentFriendlyId.None?
  {
    set p | p in ps && InConcreteScope(p)
  }

  /** The `abstract` scope of a collection: exactly the properties the `concrete` scope leaves out. */
  function AbstractScope(ps: set<Property>): (r: set<Property>)
    ensures r !! ConcreteScope(ps)
    ensures r + ConcreteScope(ps) == ps
  {
    set p | p in ps && InAbstractScope(p)
  }

  /** Every foreign key along the chain resolves to the loaded parent it names. */
  ghost predicate Resolved(p: Property)
    decreases p
  {
    match p.parent
    case None => p.parentFriendlyId.None?
    case Some(q) => p.parentFriendlyId == Some(q.friendlyId) && Resolved(q)
  }

  /** With every key resolved, `abstract?` agrees with the `abstract` scope. */
  lemma AbstractMatchesScope(p: Property)
    requires Resolved(p)
    ensures IsAbstract(p) <==> InAbstractScope(p)
  {
  }

  /** `a` is `p` or one of its ancestors. */
  ghost predicate AncestorOrSelf(a: Property, p: Property)
    decreases p
  {
    a == p || (p.parent.Some? && AncestorOrSelf(a, p.parent.value))
  }

  /** The concrete property at the top of `p`'s parent chain. */
  function Root(p: Property): (r: Property)
    ensures !IsAbstract(r)
    ensures AncestorOrSelf(r, p)
    decreases p
  {
    if IsAbstract(p) then Root(p.parent.value) else p
  }

  /** The root is the only concrete property on the chain. */
  lemma {:induction false} RootUnique(a: Property, p: Property)
    requires AncestorOrSelf(a, p) && !IsAbstract(a)
    ensures a == Root(p)
    decreases p
  {
    if a != p {
      RootUnique(a, p.parent.value);
    }
  }

  /** Every property on a chain shares the chain's root. */
  lemma {:induction false} RootShared(a: Property, p: Property)
    requires AncestorOrSelf(a, p)
    ensures Root(a) == Root(p)
    decreases p
  {
    if a != p {
      RootShared(a, p.parent.value);
    }
  }

  /** `gid`: an abstract property delegates to its parent, so the gid is its root's attribute gid. */
  function Gid(p: Property): (r: string)
    ensures r == AttributeGidPrefix + IntToString(Root(p).id)
    decreases p
  {
    if IsAbstract(p) then Gid(p.parent.value) else AttributeGidPrefix + IntToString(p.id)
  }

  /** `name`: an abstract property delegates to its parent, so the name is its root's stored name. */
  function Name(p: Property): (r: string)
    ensures r == Root(p).storedName
    decreases p
  {
    if IsAbstract(p) then Name(p.parent.value) else p.storedName
  }

  /** `property_values`: an abstract property delegates to its parent, so the values are its root's own. */
  function PropertyValues(p: Property): (r: seq<string>)
    ensures r == Root(p).ownValues
    decreases p
  {
    if IsAbstract(p) then PropertyValues(p.parent.value) else p.ownValues
  }

  /** An abstract property reports exactly its parent's gid, name and values; a concrete one its own. */
  lemma DelegatesToParent(p: Property)
    ensures IsAbstract(p) ==> Gid(p) == Gid(p.parent.value)
    ensures IsAbstract(p) ==> Name(p) == Name(p.parent.value)
    ensures IsAbstract(p) ==> PropertyValues(p) == PropertyValues(p.parent.value)
    ensures !IsAbstract(p) ==> Gid(p) == AttributeGidPrefix + IntToString(p.id)
    ensures !IsAbstract(p) ==> Name(p) == p.storedName
    ensures !IsAbstract(p) ==> PropertyValues(p) == p.ownValues
  {
  }

  /** All properties along one chain present the same gid, name and values. */
  lemma ChainAgrees(a: Property, p: Property)
    requires AncestorOrSelf(a, p)
    ensures Gid(a) == Gid(p) && Name(a) == Name(p) && PropertyValues(a) == PropertyValues(p)
  {
    RootShared(a, p);
  }

  /** Two properties present the same gid exactly when their roots have the same id. */
  lemma GidIdentifiesRoot(p: Property, q: Property)
    ensures Gid(p) == Gid(q) <==> Root(p).id == Root(q).id
  {
    if Gid(p) == Gid(q) {
      var n := |AttributeGidPrefix|;
      assert Gid(p)[n..] == IntToString(Root(p).id);
      assert Gid(q)[n..] == IntToString(Root(q).id);
      IntToStringInjective(Root(p).id, Root(q).id);
    }
  }
}
