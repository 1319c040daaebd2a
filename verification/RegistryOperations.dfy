/** The operations of the registry object are the steps that the theorems are about. */
module RegistryOperations {
  import opened PVs
  import opened Registry
  import opened RegistryTheorems

  /** Call the method that an operation stands for. */
  method Execute(factory: NdsFactory, op: Op)
    requires factory.Valid()
    requires op.RegisterInput? && op.input !in factory.ever ==>
        op.input.destinations == {} && op.input.subscribers == {} && !op.input.locked
    modifies factory, factory.inputs.Values
    ensures factory.Valid() && factory.View() == Perform(old(factory.View()), op)
  {
    match op
    case RegisterInput(p) => var _ := factory.RegisterInput(p);
    case RegisterOutput(o) => var _ := factory.RegisterOutput(o);
    case DeregisterInput(p) => factory.DeregisterInput(p);
    case DeregisterOutput(o) => factory.DeregisterOutput(o);
    case SubscribeTo(from, o) => var _ := factory.SubscribeTo(from, o);
    case SubscribeByName(from, to) => var _ := factory.SubscribeByName(from, to);
    case Unsubscribe(o) => factory.Unsubscribe(o);
    case UnsubscribeByName(to) => var _ := factory.UnsubscribeByName(to);
    case ReplicateTo(from, p) => var _ := factory.ReplicateTo(from, p);
    case ReplicateByName(from, to) => var _ := factory.ReplicateByName(from, to);
    case StopReplicationTo(p) => factory.StopReplicationTo(p);
    case StopReplicationByName(to) => var _ := factory.StopReplicationByName(to);
  }
}
