/**
  The variable store of src/app_context.rs: a `Context` owns a map from
  variable name to value, read with `var` and written with `set_var`
  (`HashMap::insert`, so a later write replaces an earlier one). The value
  type is a parameter; the source stores `f32`.
*/
module AppContext {

  import opened Wrappers

  class Context<V> {
    var vars: map<string, V>

    /** `Context::new`: no variable is defined. */
    constructor ()
      ensures vars == map[]
      ensures forall name :: Var(name) == None
    {
      vars := map[];
    }

    /** `Context::var`: the value stored under `varName`, if any. It only reads. */
    function Var(varName: string): (r: Option<V>)
      reads this
      ensures r.Some? <==> varName in vars
      ensures r.Some? ==> vars[varName] == r.value
    {
      if varName in vars then Some(vars[varName]) else None
    }

    /** `Context::set_var`: afterwards `varName` reads back `value`, and every
        other name reads what it read before. */
    method SetVar(varName: string, value: V)
      modifies this
      ensures vars == old(vars)[varName := value]
      ensures Var(varName) == Some(value)
      ensures forall other :: other != varName ==> Var(other) == old(Var(other))
    {
      vars := vars[varName := value];
    }
  }

  /** A session on a fresh context: nothing is defined at first; a set name
      reads back its value; setting another name leaves it alone; setting it
      again replaces the value; reading changes nothing. */
  method Session<V>(name: string, other: string, first: V, second: V, unrelated: V)
    returns (before: Option<V>, afterSet: Option<V>, afterOther: Option<V>, afterOverwrite: Option<V>, reread: Option<V>)
    requires other != name
    ensures before == None
    ensures afterSet == Some(first)
    ensures afterOther == Some(first)
    ensures afterOverwrite == reread == Some(second)
  {
    var context := new Context<V>();
    before := context.Var(name);
    context.SetVar(name, first);
    afterSet := context.Var(name);
    context.SetVar(other, unrelated);
    afterOther := context.Var(name);
    context.SetVar(name, second);
    afterOverwrite := context.Var(name);
    reread := context.Var(name);
  }
}
