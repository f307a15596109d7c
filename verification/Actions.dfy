/** The actions the application knows how to display. */
module Actions {
  const EOSIO_TOKEN_TRANSFER: int := 0xCDCD3C2D57000000
  const EOSIO: int := 0x5530EA0000000000
  const EOSIO_DELEGATEBW: int := 0x4AA2A61B2A3F0000
  const EOSIO_UNDELEGATEBW: int := 0xD4D2A8A986CA8FC0
  const EOSIO_VOTEPRODUCER: int := 0xDD32AADE89D21570
  const EOSIO_BUYRAM: int := 0x3EBD734800000000
  const EOSIO_BUYRAMBYTES: int := 0x3EBD7348FECAB000
  const EOSIO_SELLRAM: int := 0xC2A31B9A40000000
  const EOSIO_UPDATE_AUTH: int := 0xD5526CA8DACB4000
  const EOSIO_DELETE_AUTH: int := 0x4AA2ACA8DACB4000
  const EOSIO_REFUND: int := 0xBA97A9A400000000
  const EOSIO_LINK_AUTH: int := 0x8BA7036B2D000000
  const EOSIO_UNLINK_AUTH: int := 0xD4E2E9C0DACB4000
  const EOSIO_NEW_ACCOUNT: int := 0x9AB864229A9E4000

  datatype Kind =
    | TokenTransfer | DelegateBw | UndelegateBw | Refund | BuyRam | BuyRamBytes | SellRam
    | VoteProducer | UpdateAuth | DeleteAuth | LinkAuth | UnlinkAuth | NewAccount
    | Unknown

  /** A transfer is known by its action name alone; every other kind belongs to the system contract. */
  function KindOf(contract: nat, action: nat): Kind {
    if action == EOSIO_TOKEN_TRANSFER then TokenTransfer
    else if contract != EOSIO then Unknown
    else if action == EOSIO_DELEGATEBW then DelegateBw
    else if action == EOSIO_UNDELEGATEBW then UndelegateBw
    else if action == EOSIO_REFUND then Refund
    else if action == EOSIO_BUYRAM then BuyRam
    else if action == EOSIO_BUYRAMBYTES then BuyRamBytes
    else if action == EOSIO_SELLRAM then SellRam
    else if action == EOSIO_VOTEPRODUCER then VoteProducer
    else if action == EOSIO_UPDATE_AUTH then UpdateAuth
    else if action == EOSIO_DELETE_AUTH then DeleteAuth
    else if action == EOSIO_LINK_AUTH then LinkAuth
    else if action == EOSIO_UNLINK_AUTH then UnlinkAuth
    else if action == EOSIO_NEW_ACCOUNT then NewAccount
    else Unknown
  }
}
