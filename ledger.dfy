/**
 * The certificate registry contract on the chain, seen only through
 * `is_certificate_submitted` and `submit_certificate`. The class records
 * every call made to it so that callers can state which calls happened.
 */
module Ledger {

  datatype SubmitReceipt = TxHash(hash: string) | LedgerFailure

  /** The answer of the existence query: the contract's boolean, or a raised RPC error. */
  datatype Lookup = Known(present: bool) | LookupFailure

  class Ledger {
    /** The identifiers the contract reports as submitted. */
    var onChain: set<string>
    /** Every `is_certificate_submitted` call, in order. */
    var queries: seq<string>
    /** Every `submit_certificate` call, in order. */
    var submissions: seq<string>

    constructor (initial: set<string>)
      ensures onChain == initial && queries == [] && submissions == []
    {
      onChain := initial;
      queries := [];
      submissions := [];
    }

    /**
     * `is_certificate_submitted(id)`: a read of the contract. The RPC may
     * fail (the call raises); otherwise it reports membership on the chain.
     */
    method IsSubmitted(id: string) returns (answer: Lookup)
      modifies this`queries
      ensures answer.Known? ==> (answer.present <==> id in onChain)
      ensures queries == old(queries) + [id]
    {
      queries := queries + [id];
      var reachable: bool :| true;
      if reachable {
        answer := Known(id in onChain);
      } else {
        answer := LookupFailure;
      }
    }

    /**
     * `submit_certificate(id)`: sends a transaction. The network may fail
     * (the call raises), possibly after the node already accepted the
     * transaction, which is then mined all the same; on success the
     * transaction hash is returned and the identifier is taken to be on
     * the chain from then on (a reverted or dropped transaction is not
     * modelled).
     */
    method Submit(id: string) returns (receipt: SubmitReceipt)
      modifies this`onChain, this`submissions
      ensures submissions == old(submissions) + [id]
      ensures receipt.TxHash? ==> onChain == old(onChain) + {id}
      ensures receipt.LedgerFailure? ==> onChain == old(onChain) || onChain == old(onChain) + {id}
    {
      submissions := submissions + [id];
      var accepted: bool :| true;
      if accepted {
        var hash: string :| true;
        onChain := onChain + {id};
        receipt := TxHash(hash);
      } else {
        var mined: bool :| true;
        if mined {
          onChain := onChain + {id};
        }
        receipt := LedgerFailure;
      }
    }
  }
}
