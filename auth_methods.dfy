/** The authentication method codes of section 3 of RFC 1928, as the source's
    `AuthMethods` enum. */
module AuthMethods {
  import opened Bytes
  import opened Wrappers

  datatype AuthMethod =
    | NoAuth
    | GssApi
    | UsernamePassword
    | IanaAssigned
    | Reserved
    | NotAcceptable

  /** The bytes that name a method on the wire. */
  predicate IsMethodCode(b: byte)
  {
    b <= 4 || b == 0xFF
  }

  /** `to_u8`: every method has a code, and the codes of two methods differ. */
  function ToByte(m: AuthMethod): (b: byte)
    ensures IsMethodCode(b)
    ensures FromByte(b) == Some(m)
  {
    match m
    case NoAuth => 0
    case GssApi => 1
    case UsernamePassword => 2
    case IanaAssigned => 3
    case Reserved => 4
    case NotAcceptable => 0xFF
  }

  /** `from`: defined for the method codes only; the source panics on any
      other byte, which is `None` here. */
  function FromByte(b: byte): (r: Option<AuthMethod>)
    ensures r.Some? <==> IsMethodCode(b)
  {
    if b == 0 then Some(NoAuth)
    else if b == 1 then Some(GssApi)
    else if b == 2 then Some(UsernamePassword)
    else if b == 3 then Some(IanaAssigned)
    else if b == 4 then Some(Reserved)
    else if b == 0xFF then Some(NotAcceptable)
    else None
  }

  /** Decoding a byte and encoding the method gives the byte back. */
  lemma FromByteThenToByte(b: byte)
    requires IsMethodCode(b)
    ensures FromByte(b).Some? && ToByte(FromByte(b).value) == b
  {
  }

  /** `to_u8` is injective. */
  lemma ToByteInjective(m: AuthMethod, n: AuthMethod)
    ensures ToByte(m) == ToByte(n) <==> m == n
  {
    assert FromByte(ToByte(m)) == Some(m) && FromByte(ToByte(n)) == Some(n);
  }

  /** `clone`: the same variant. */
  function Clone(m: AuthMethod): (c: AuthMethod)
    ensures c == m
    ensures ToByte(c) == ToByte(m)
  {
    match m
    case NoAuth => NoAuth
    case GssApi => GssApi
    case UsernamePassword => UsernamePassword
    case IanaAssigned => IanaAssigned
    case Reserved => Reserved
    case NotAcceptable => NotAcceptable
  }
}
