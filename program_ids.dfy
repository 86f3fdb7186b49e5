/**
 * Which program id the web client uses on each cluster:
 * `getSecuredrawProgramId` in `anchor/src/securedraw-exports.ts` and
 * `getTmpdrawProgramId` in `anchor/src/tmpdraw-exports.ts`. The two functions
 * are the same switch, each over its own program's IDL address
 * (`SECUREDRAW_PROGRAM_ID`, `TMPDRAW_PROGRAM_ID`), so `ProgramId` models both
 * and takes that address as a parameter.
 */
module ProgramIds {
  import opened Runtime

  /** web3.js's `Cluster`; `Other` is any other name the client is given. */
  datatype Cluster = Devnet | Testnet | MainnetBeta | Other(name: string)

  /** The id both functions return on devnet and testnet. */
  const SharedDevnetId: Pubkey := Pubkey("CounNZdmsQmWh7uVngV9FXW2dZ6zAgbJyYsvBpqbykg")

  /**
   * `getSecuredrawProgramId(cluster)` with `idlAddress` for
   * `SECUREDRAW_PROGRAM_ID`, and `getTmpdrawProgramId(cluster)` with
   * `idlAddress` for `TMPDRAW_PROGRAM_ID`.
   */
  function ProgramId(cluster: Cluster, idlAddress: Pubkey): (id: Pubkey)
    ensures id == SharedDevnetId || id == idlAddress
  {
    match cluster
    case Devnet | Testnet => SharedDevnetId
    case _ => idlAddress
  }

  /**
   * Devnet and testnet give the fixed id; mainnet-beta and every other
   * cluster give the IDL address.
   */
  lemma IdByCluster(idlAddress: Pubkey, name: string)
    ensures ProgramId(Devnet, idlAddress) == SharedDevnetId
    ensures ProgramId(Testnet, idlAddress) == ProgramId(Devnet, idlAddress)
    ensures ProgramId(MainnetBeta, idlAddress) == idlAddress
    ensures ProgramId(Other(name), idlAddress) == ProgramId(MainnetBeta, idlAddress)
  {
  }

  /**
   * On devnet and testnet the two programs resolve to one and the same id,
   * whatever their IDL addresses; elsewhere they resolve to their own.
   */
  lemma ProgramsShareDevnetId(cluster: Cluster, securedrawIdl: Pubkey, tmpdrawIdl: Pubkey)
    ensures cluster.Devnet? || cluster.Testnet? ==>
      ProgramId(cluster, securedrawIdl) == ProgramId(cluster, tmpdrawIdl)
    ensures !(cluster.Devnet? || cluster.Testnet?) ==>
      ProgramId(cluster, securedrawIdl) == securedrawIdl
      && ProgramId(cluster, tmpdrawIdl) == tmpdrawIdl
  {
  }
}
