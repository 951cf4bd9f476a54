/** The status of a rent agreement, which the agreement and dispute services both write. */
module RentContract {

  datatype AgreementStatus = Draft | PendingDeposit | Active | Expired | Terminated | Disputed
}
