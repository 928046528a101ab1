/** Namespace bindings and the namespaces they range over (api/authorization/v1alpha1/binddefinition_types.go). */
module Bindings {
  import opened LabelSelectors

  datatype Namespace = Namespace(labels: Labels, terminating: bool)
  datatype Binding = Binding(clusterRoleRefs: seq<string>, roleRefs: seq<string>, namespace: string, selectors: seq<Selector>)
}
