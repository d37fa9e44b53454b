/** What a compiled `utls.ClientHelloSpec` puts on the wire, as far as a fingerprint can see it.
    utls constants are their IANA numbers. */
module ClientHello {
  import opened Text
  import opened StableSort

  const VERSION_TLS10: U16 := 0x0301
  const VERSION_TLS11: U16 := 0x0302
  const VERSION_TLS12: U16 := 0x0303
  const VERSION_TLS13: U16 := 0x0304

  /** GREASE_PLACEHOLDER: rewritten to a random GREASE value when the hello is sent. */
  const GREASE: U16 := 0x0a0a

  const X25519: U16 := 29
  const P256: U16 := 23
  const P384: U16 := 24
  const X25519MLKEM768: U16 := 4588

  /** Extensions whose content the compilers touch; everything else is `Fixed` by its id.
      `Nil` is Go's nil interface value. */
  datatype Ext =
    | Sni(serverName: string)
    | SupportedGroups(groups: seq<U16>)
    | PointFormats(points: seq<nat>)
    | SignatureAlgorithms(schemes: seq<U16>)
    | Alpn(protocols: seq<string>)
    | CompressCert(algorithms: seq<U16>)
    | SupportedVersions(versions: seq<U16>)
    | KeyShare(shares: seq<U16>)
    | GreaseExt
    | Fixed(id: U16)
    | Nil

  datatype Hello = Hello(minVersion: nat, maxVersion: nat, ciphers: seq<U16>, exts: seq<Ext>)

  function ExtId(e: Ext): U16 {
    match e
    case Sni(_) => 0
    case SupportedGroups(_) => 10
    case PointFormats(_) => 11
    case SignatureAlgorithms(_) => 13
    case Alpn(_) => 16
    case CompressCert(_) => 27
    case SupportedVersions(_) => 43
    case KeyShare(_) => 51
    case GreaseExt => GREASE
    case Fixed(id) => id
    case Nil => 0xffff
  }

  const EXT_ID: Ext -> U16 := (e: Ext) => ExtId(e)

  function WireIds(exts: seq<Ext>): seq<U16> {
    Map(exts, EXT_ID)
  }

  /** The sixteen reserved values of RFC 8701: both bytes equal, low nibble 0xA. */
  predicate IsGrease(v: U16) {
    v / 256 == v % 256 && v % 16 == 10
  }

  /** They are 0x0a0a, 0x1a1a and so on up to 0xfafa. */
  lemma GreaseValue(k: nat)
    requires k < 16
    ensures IsGrease(0x0a0a + 0x1010 * k)
  {
    var b := 16 * k + 10;
    assert 0x0a0a + 0x1010 * k == 256 * b + b;
  }

  /** And no others are. */
  lemma OnlyGreaseValues(v: U16) returns (k: nat)
    requires IsGrease(v)
    ensures k < 16 && v == 0x0a0a + 0x1010 * k
  {
    k := v % 256 / 16;
    assert v == 256 * (v / 256) + v % 256;
    assert v % 256 == 16 * k + 10;
  }

  const NOT_GREASE: U16 -> bool := (v: U16) => !IsGrease(v)

  /** What a fingerprint does first: forget GREASE. */
  function Erase(ids: seq<U16>): seq<U16> {
    Keep(ids, NOT_GREASE)
  }

  predicate GreaseFree(ids: seq<U16>) {
    forall v :: v in ids ==> !IsGrease(v)
  }

  lemma ErasePlaceholder()
    ensures IsGrease(GREASE) && Erase([GREASE]) == [] && Erase([]) == []
  {
    assert [GREASE][1..] == [] && !NOT_GREASE(GREASE);
    assert Keep([GREASE][1..], NOT_GREASE) == [];
  }

  lemma EraseMembers(ids: seq<U16>)
    ensures forall v :: v in Erase(ids) <==> v in ids && !IsGrease(v)
  {
    KeepMembers(ids, NOT_GREASE);
  }

  lemma EraseConcat(a: seq<U16>, b: seq<U16>)
    ensures Erase(a + b) == Erase(a) + Erase(b)
  {
    KeepConcat(a, b, NOT_GREASE);
  }

  lemma EraseGreaseFree(ids: seq<U16>)
    requires GreaseFree(ids)
    ensures Erase(ids) == ids && Erase([GREASE] + ids) == ids
  {
    KeepAll(ids, NOT_GREASE);
    EraseConcat([GREASE], ids);
    ErasePlaceholder();
  }

  /** The first extension with a given id, if any. */
  function FindExt(exts: seq<Ext>, id: U16): Option<Ext> {
    if exts == [] then None
    else if ExtId(exts[0]) == id then Some(exts[0])
    else FindExt(exts[1..], id)
  }

  lemma {:induction false} FindExtMember(exts: seq<Ext>, id: U16)
    ensures FindExt(exts, id).Some? <==> id in WireIds(exts)
    ensures FindExt(exts, id).Some? ==> FindExt(exts, id).value in exts && ExtId(FindExt(exts, id).value) == id
    decreases |exts|
  {
    if exts != [] {
      FindExtMember(exts[1..], id);
      assert WireIds(exts) == [ExtId(exts[0])] + WireIds(exts[1..]);
    }
  }
}
