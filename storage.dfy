/**
 * storage.py `DescriptorStorage`: the store of packages, services and
 * functions, keyed by the id derived from each descriptor's content.
 * Reading a file is outside the model: a descriptor file is given as
 * `Missing` (no such file) or as the content it parsed to, and the id
 * function `descriptor_id` is a parameter of the store.
 */
module Storage {
  import opened Wrappers
  import opened Dicts
  import opened Content
  import opened Links
  import opened Descriptors
  import opened FunctionQueries
  import opened Functions
  import opened ServiceQueries
  import opened Services

  class DescriptorStorage {
    var packages: Dict<string, Descriptor>
    var services: Dict<string, Service>
    var functions: Dict<string, Function>
    /** `descriptor_id`: the id the content declares; "" stands for None. */
    const idOf: Content -> string

    /** Every object is stored under its own id, the one its content
        yields, and is of the right kind; a stored service has content and a
        non-empty id.  Keys are distinct, so no two stored objects of one
        kind share an id. */
    ghost predicate Valid()
      reads this
    {
      packages.Valid() && services.Valid() && functions.Valid() &&
      (forall i | 0 <= i < |packages.entries| ::
        packages.entries[i].1.id == packages.entries[i].0 && packages.entries[i].1.kind == PackageDoc) &&
      (forall i | 0 <= i < |services.entries| ::
        services.entries[i].1.desc.id == services.entries[i].0 && services.entries[i].0 != "" &&
        services.entries[i].1.desc.kind == ServiceDoc && services.entries[i].1.desc.content.Some? &&
        services.entries[i].1.desc.id == DescriptorId(services.entries[i].1.desc.content)) &&
      (forall i | 0 <= i < |functions.entries| ::
        functions.entries[i].1.desc.id == functions.entries[i].0 && functions.entries[i].1.desc.kind == FunctionDoc &&
        functions.entries[i].1.desc.id == DescriptorId(functions.entries[i].1.desc.content))
    }

    constructor(idOf: Content -> string)
      ensures this.idOf == idOf && Valid()
      ensures packages == Empty() && services == Empty() && functions == Empty()
    {
      this.idOf := idOf;
      packages := Empty();
      services := Empty();
      functions := Empty();
    }

    /** The id a descriptor gets: derived from its content, None (here "")
        when the file parsed to nothing. */
    function DescriptorId(content: Option<Content>): string {
      match content
      case Some(c) => idOf(c)
      case None => ""
    }

    /** `create_package`: null for a missing file; otherwise the package
        already stored under the new descriptor's id, or the new package,
        stored. */
    method CreatePackage(file: DescriptorFile) returns (p: Descriptor?)
      requires Valid()
      modifies this`packages
      ensures Valid()
      ensures file.Missing? ==> p == null && packages == old(packages)
      ensures file.Present? ==>
        p != null && p.id == DescriptorId(file.content) && packages.Get(p.id) == Some(p)
      ensures file.Present? && old(packages).HasKey(DescriptorId(file.content)) ==> packages == old(packages)
      ensures file.Present? && !old(packages).HasKey(DescriptorId(file.content)) ==>
        fresh(p) && p.content == file.content && packages == old(packages).Put(p.id, p)
    {
      if file.Missing? {
        return null;
      }
      var newPackage := new Descriptor(PackageDoc, DescriptorId(file.content), file.content);
      var found := packages.Get(newPackage.id);
      if found.Some? {
        GetSomeHasKey(packages, newPackage.id);
        StoredUnderOwnId(packages.entries, newPackage.id);
        return found.value;
      }
      PutShape(packages, newPackage.id, newPackage);
      GetPut(packages, newPackage.id, newPackage, newPackage.id);
      packages := packages.Put(newPackage.id, newPackage);
      return newPackage;
    }

    /** `service(sid)`: the stored service, or null. */
    function GetService(sid: string): (s: Service?)
      reads this
      ensures s != null <==> services.HasKey(sid)
      ensures s != null && Valid() ==> s.desc.id == sid && s.desc.content.Some?
    {
      match services.Get(sid)
      case None => null
      case Some(s) => GetEntryOf(services, sid); s
    }

    /** `create_service`: null for a missing file, a file without content or
        content without an id; otherwise the service already stored under
        that id, or the new service, stored. */
    method CreateService(file: DescriptorFile) returns (s: Service?)
      requires Valid()
      modifies this`services
      ensures Valid()
      ensures file.Missing? || file.content.None? || DescriptorId(file.content) == "" ==>
        s == null && services == old(services)
      ensures file.Present? && file.content.Some? && DescriptorId(file.content) != "" ==>
        s != null && s.desc.id == DescriptorId(file.content) && services.Get(s.desc.id) == Some(s) &&
        s.desc.kind == ServiceDoc && s.desc.content.Some?
      ensures file.Present? && old(services).HasKey(DescriptorId(file.content)) ==> services == old(services)
      ensures file.Present? && file.content.Some? && DescriptorId(file.content) != "" &&
              !old(services).HasKey(DescriptorId(file.content)) ==>
        fresh(s) && fresh(s.desc) && s.desc.content == file.content && s.Valid() &&
        s.View() == EmptyService(s.desc.id, EmptyState()) && s.functions == Empty() && s.fwGraphs == [] &&
        services == old(services).Put(s.desc.id, s)
    {
      if file.Missing? {
        return null;
      }
      var desc := new Descriptor(ServiceDoc, DescriptorId(file.content), file.content);
      var newService := new Service(desc);
      if desc.content.None? || desc.id == "" {
        return null;
      }
      var found := services.Get(desc.id);
      if found.Some? {
        GetSomeHasKey(services, desc.id);
        StoredServiceUnderOwnId(services.entries, desc.id);
        return found.value;
      }
      PutService(newService);
      return newService;
    }

    /** Storing a service with content under its own, new id keeps the
        store consistent. */
    method PutService(s: Service)
      requires Valid() && s.desc.kind == ServiceDoc && s.desc.content.Some?
      requires s.desc.id == DescriptorId(s.desc.content) && s.desc.id != "" && !services.HasKey(s.desc.id)
      modifies this`services
      ensures Valid() && services == old(services).Put(s.desc.id, s) && services.Get(s.desc.id) == Some(s)
    {
      PutShape(services, s.desc.id, s);
      GetPut(services, s.desc.id, s, s.desc.id);
      services := services.Put(s.desc.id, s);
    }

    /** `function(fid)` as written: the membership test looks inside the
        stored object instead of the dictionary, so the lookup raises a
        KeyError for an unknown id and a TypeError for a known one. */
    function FunctionAsWritten(fid: string): (r: Outcome<Function?>)
      reads this
      ensures r.Raised?
    {
      if !functions.HasKey(fid) then Raised("KeyError") else Raised("TypeError")
    }

    /** `function(fid)` as intended: the stored function, or null. */
    function GetFunction(fid: string): (f: Function?)
      reads this
      ensures f != null <==> functions.HasKey(fid)
      ensures f != null && Valid() ==> f.desc.id == fid
    {
      match functions.Get(fid)
      case None => null
      case Some(f) => GetEntryOf(functions, fid); f
    }

    /** A stored function is found by the intended lookup, while the
        lookup as written raises for it. */
    lemma FunctionLookupRaises(fid: string)
      requires functions.HasKey(fid)
      ensures GetFunction(fid) != null && FunctionAsWritten(fid) == Raised("TypeError")
    {
    }

    /** `create_function`: null for a missing file; otherwise the function
        already stored under the new descriptor's id, or the new function,
        stored.  Unlike services, a function without content is stored. */
    method CreateFunction(file: DescriptorFile) returns (f: Function?)
      requires Valid()
      modifies this`functions
      ensures Valid()
      ensures file.Missing? ==> f == null && functions == old(functions)
      ensures file.Present? ==>
        f != null && f.desc.id == DescriptorId(file.content) && functions.Get(f.desc.id) == Some(f) &&
        f.desc.kind == FunctionDoc
      ensures file.Present? && old(functions).HasKey(DescriptorId(file.content)) ==> functions == old(functions)
      ensures file.Present? && !old(functions).HasKey(DescriptorId(file.content)) ==>
        fresh(f) && fresh(f.desc) && f.desc.content == file.content && f.Valid() &&
        f.View() == FunctionState(f.desc.id, EmptyState(), Empty()) &&
        functions == old(functions).Put(f.desc.id, f)
    {
      if file.Missing? {
        return null;
      }
      var desc := new Descriptor(FunctionDoc, DescriptorId(file.content), file.content);
      var newFunction := new Function(desc);
      var found := functions.Get(desc.id);
      if found.Some? {
        GetSomeHasKey(functions, desc.id);
        StoredFunctionUnderOwnId(functions.entries, desc.id);
        return found.value;
      }
      PutShape(functions, desc.id, newFunction);
      GetPut(functions, desc.id, newFunction, desc.id);
      functions := functions.Put(desc.id, newFunction);
      return newFunction;
    }
  }

  /** The entry found by key carries that key. */
  lemma GetEntryOf<V>(d: Dict<string, V>, k: string)
    requires d.Get(k).Some?
    ensures exists i | 0 <= i < |d.entries| :: d.entries[i] == (k, d.Get(k).value)
  {
    var i := IndexOf(d.entries, k).value;
    assert d.entries[i] == (k, d.Get(k).value);
  }

  lemma StoredUnderOwnId(es: seq<(string, Descriptor)>, k: string)
    requires Dict(es).Get(k).Some?
    requires forall i | 0 <= i < |es| :: es[i].1.id == es[i].0
    ensures Dict(es).Get(k).value.id == k
  {
    GetEntryOf(Dict(es), k);
  }

  lemma StoredServiceUnderOwnId(es: seq<(string, Service)>, k: string)
    requires Dict(es).Get(k).Some?
    requires forall i | 0 <= i < |es| ::
      es[i].1.desc.id == es[i].0 && es[i].1.desc.kind == ServiceDoc && es[i].1.desc.content.Some?
    ensures Dict(es).Get(k).value.desc.id == k
    ensures Dict(es).Get(k).value.desc.kind == ServiceDoc && Dict(es).Get(k).value.desc.content.Some?
  {
    GetEntryOf(Dict(es), k);
  }

  lemma StoredFunctionUnderOwnId(es: seq<(string, Function)>, k: string)
    requires Dict(es).Get(k).Some?
    requires forall i | 0 <= i < |es| :: es[i].1.desc.id == es[i].0 && es[i].1.desc.kind == FunctionDoc
    ensures Dict(es).Get(k).value.desc.id == k && Dict(es).Get(k).value.desc.kind == FunctionDoc
  {
    GetEntryOf(Dict(es), k);
  }
}
