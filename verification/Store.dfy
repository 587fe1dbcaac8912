/** The transactional store (sql/storebase.go): work done in a transaction is kept or undone as a whole. */
module Store {
  import opened Schema
  import opened Wrappers

  /** An open transaction: a private copy of every table. */
  class Tx {
    var blocks: BlocksTables
    var accounts: AccountsTables
    var rewards: RewardsTables
    var votings: VotingsTables

    constructor (db: Database)
      ensures blocks == db.blocks && accounts == db.accounts && rewards == db.rewards && votings == db.votings
    {
      blocks, accounts, rewards, votings := db.blocks, db.accounts, db.rewards, db.votings;
    }
  }

  class StoreBase {
    var db: Database

    constructor (db: Database)
      ensures this.db == db
    {
      this.db := db;
    }

    /** The first half of Transact. */
    method Begin() returns (tx: Tx)
      ensures fresh(tx)
      ensures tx.blocks == db.blocks && tx.accounts == db.accounts && tx.rewards == db.rewards
              && tx.votings == db.votings
    {
      tx := new Tx(db);
    }

    /** The deferred half of Transact: commit if the work returned nil, roll back otherwise. */
    method End(tx: Tx, outcome: Outcome)
      modifies this
      ensures outcome.Pass? ==> db == Database(tx.blocks, tx.accounts, tx.rewards, tx.votings)
      ensures outcome.Fail? ==> db == old(db)
    {
      if outcome.Pass? { db := Database(tx.blocks, tx.accounts, tx.rewards, tx.votings); }
    }
  }
}
