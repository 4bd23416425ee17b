/** What names a message, and the indexes it can be listed in. */
module MessageKeys {

  type Id = string

  datatype Address = Address(shard: string, entityType: string, entityId: string)

  /** Each polling index serves one shard or one address. Packing is injective, so two indexes are the
      same subspace exactly when they have the same key. */
  datatype Key = AtShard(shard: string) | AtAddress(address: Address)
}
