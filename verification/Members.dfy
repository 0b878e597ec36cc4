/** The members of a validator set, as both chains list them. */
module Members {

  const TWO64: int := 0x1_0000_0000_0000_0000

  type Uint64 = n: nat | n < TWO64

  datatype Member = Member(power: Uint64, address: string)
}
