/**
  The package-level registry of database helpers: SetHelper registers a
  helper under a name, New hands out the caller's helper or a new instance of
  a registered one, and SetErrNoRows records the error drivers report when a
  query returns no rows.

  The package variables `Helper` and `ErrNoRows` become the fields of one
  Package object.  A helper is any value of type H; Go's nil interface is
  Option.None, and the helper's own NewHelper method is passed to New as a
  function, which may itself give back a nil helper.
 */
module Registry {
  import opened Wrappers

  /** A Go error value, identified by its message. */
  datatype Error = Error(message: string)

  /** The error New reports for a name nobody registered. */
  const NoHelper: Error := Error("no helper name of such")

  /** How New can fail: the error it returns, or the run-time panic of calling NewHelper on a nil helper. */
  datatype Failure = Returned(err: Error) | NilHelperPanic

  class Package<H> {
    /** The helper map; None is the nil map the package starts with. */
    var helper: Option<map<string, Option<H>>>
    /** The error for "no rows"; None is the nil error. */
    var errNoRows: Option<Error>

    /** The package's state before any registration. */
    constructor()
      ensures helper == None && errNoRows == None
    {
      helper := None;
      errNoRows := None;
    }

    /** The registered helpers; reading the nil map finds nothing. */
    function Helpers(): (r: map<string, Option<H>>)
      reads this
      ensures helper.None? ==> r == map[]
      ensures helper.Some? ==> r == helper.value
    {
      if helper.Some? then helper.value else map[]
    }

    /**
      Registers `dhl` under `name`, replacing an earlier registration of the
      same name; the map is created on first use.
     */
    method SetHelper(name: string, dhl: Option<H>)
      modifies this`helper
      ensures helper.Some?
      ensures Helpers() == old(Helpers())[name := dhl]
    {
      if helper == None {
        helper := Some(map[]);
      }
      helper := Some(helper.value[name := dhl]);
    }

    /** Replaces the error reported when there are no rows. */
    method SetErrNoRows(err: Option<Error>)
      modifies this`errNoRows
      ensures errNoRows == err
    {
      errNoRows := err;
    }

    /**
      New(dhl, helperId).  `dhl` is the pointer argument: None is a nil
      pointer, Some(None) a pointer to a nil helper.  A non-nil helper is
      handed back as it is; otherwise the helper registered under helperId
      makes a new instance, and a missing name is an error.  The result is
      the returned helper, None when NewHelper gave a nil one.
     */
    function New(dhl: Option<Option<H>>, helperId: string, newHelper: H -> Option<H>): (r: Result<Option<H>, Failure>)
      reads this
      ensures dhl.Some? && dhl.value.Some? ==> r == Ok(dhl.value)
      ensures (dhl.None? || dhl.value.None?) && helperId !in Helpers() ==> r == Err(Returned(NoHelper))
      ensures (dhl.None? || dhl.value.None?) && helperId in Helpers() ==>
        if Helpers()[helperId].Some? then r == Ok(newHelper(Helpers()[helperId].value)) else r == Err(NilHelperPanic)
      ensures r.Err? ==> dhl.None? || dhl.value.None?
    {
      var ndh := if dhl.Some? then dhl.value else None;
      if ndh.Some? then Ok(ndh)
      else if helperId !in Helpers() then Err(Returned(NoHelper))
      else
        var ndhi := Helpers()[helperId];
        if ndhi.None? then Err(NilHelperPanic) else Ok(newHelper(ndhi.value))
    }
  }

  /** Before any registration, asking for a helper by name always fails. */
  method NothingRegisteredYet<H>(helperId: string, newHelper: H -> Option<H>) returns (r: Result<Option<H>, Failure>)
    ensures r == Err(Returned(NoHelper))
  {
    var p := new Package<H>();
    r := p.New(None, helperId, newHelper);
  }

  /**
    A registered helper is found by its name, and registering another name
    afterwards does not disturb it.
   */
  method RegisterThenCreate<H>(p: Package<H>, name: string, other: string, h: H, g: Option<H>, newHelper: H -> Option<H>)
    returns (r: Result<Option<H>, Failure>)
    requires other != name
    modifies p
    ensures r == Ok(newHelper(h))
    ensures name in p.Helpers() && other in p.Helpers()
  {
    p.SetHelper(name, Some(h));
    p.SetHelper(other, g);
    r := p.New(None, name, newHelper);
  }
}
