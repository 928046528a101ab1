/** Owner references of Kubernetes objects. */
module Owners {
  import opened Options

  /** The identity of an owner. */
  datatype Owner = Owner(apiVersion: string, kind: string, name: string, uid: string)
  datatype OwnerRef = OwnerRef(owner: Owner, controller: Option<bool>, block: Option<bool>)
}
