/**
 * The argument chain (src/args.rs): a singly linked list of named values,
 * newest link first. Attaching a name builds a new link that points at the
 * existing chain, which is left as it was; lookup walks from the newest link
 * toward the root, so a later argument shadows an earlier one of the same name.
 */
module Arguments {
  import opened Wrappers
  import opened Values

  datatype Args = Link(name: string, value: Value, prev: Option<Args>) {

    /** `Args::arg`: attach `(name', value')` in front of this chain. */
    function Arg(name': string, value': Value): (a: Args)
      ensures a.Get(name') == Some(a) && a.value == value'
      ensures forall query :: query != name' ==> a.Get(query) == Get(query)
    {
      Link(name', value', Some(this))
    }

    /**
     * `Args::get`: the newest link carrying `query`, if any. A found link
     * always carries the queried name.
     */
    function Get(query: string): (r: Option<Args>)
      ensures r.Some? ==> r.value.name == query
      ensures r.None? ==> query != name
      decreases this
    {
      if name == query then Some(this)
      else match prev
        case Some(p) => p.Get(query)
        case None => None
    }

    /**
     * `Display` of a link forwards to its value's `Display`: a string as it
     * is, a number in canonical decimal. The name plays no part.
     */
    function Fmt(): (s: string)
      ensures value.Str? ==> s == value.s
      ensures value.Number? ==> CanonicalDecimal(s) && ParseDecimal(s) == value.n as int
    {
      Display(value)
    }

    /**
     * What the chain means: each name bound to the value attached last,
     * the older bindings being overridden by newer ones.
     */
    function Bindings(): map<string, Value>
      decreases this
    {
      match prev
      case None => map[name := value]
      case Some(p) => p.Bindings()[name := value]
    }
  }

  /** `arg`: a chain of one link, with no predecessor. */
  function Arg(name: string, value: Value): (a: Args)
    ensures a.Get(name) == Some(a) && a.value == value
    ensures forall query :: query != name ==> a.Get(query) == None
  {
    Link(name, value, None)
  }

  /** Lookup agrees with the chain's meaning: found exactly when bound, and with the newest value. */
  lemma {:induction false} GetAgreesWithBindings(a: Args, query: string)
    ensures a.Get(query).Some? <==> query in a.Bindings()
    ensures a.Get(query).Some? ==> a.Get(query).value.value == a.Bindings()[query]
    decreases a
  {
    match a.prev
    case None =>
    case Some(p) =>
      if a.name != query {
        GetAgreesWithBindings(p, query);
      }
  }

  /** Attaching a name a second time hides the first value. */
  lemma Shadowing(a: Args, name: string, older: Value, newer: Value)
    ensures a.Arg(name, older).Arg(name, newer).Get(name).value.value == newer
    ensures Arg(name, older).Arg(name, newer).Get(name).value.value == newer
  {
  }

  /** The examples of src/args.rs and the shadowing example `arg("x",1).arg("x",2)`. */
  lemma ArgsExamples()
    ensures Arg("name", Str("George")).Fmt() == "George"
    ensures Arg("name", Str("John")).Get("name").value.Fmt() == "John"
    ensures Arg("count", FromI32(3)).Get("count").value.Fmt() == "3"
    ensures Arg("x", Number(1)).Arg("x", Number(2)).Get("x").value.value == Number(2)
  {
  }
}
