/** Paged list reads of the admission webhooks (api/authorization/v1alpha1/admission_list_helpers.go). */
module Paging {
  import opened Options

  datatype Item<T> = Item(name: string, obj: T)
  type Pages<T> = seq<seq<Item<T>>>

  /** The pages partition the stored objects: each object stands at exactly one position. */
  ghost predicate Lists<T>(pages: Pages<T>, store: map<string, T>) {
    && |pages| > 0
    && (forall p, k | At(pages, p, k) ::
          pages[p][k].name in store && store[pages[p][k].name] == pages[p][k].obj)
    && (forall n :: n in store ==> Listed(pages, n))
    && (forall p, k, p', k' | At(pages, p, k) && At(pages, p', k') ::
          pages[p][k].name == pages[p'][k'].name ==> p == p' && k == k')
  }

  predicate At<T>(pages: Pages<T>, p: int, k: int) {
    0 <= p < |pages| && 0 <= k < |pages[p]|
  }

  ghost predicate Listed<T>(pages: Pages<T>, name: string) {
    exists p, k :: At(pages, p, k) && pages[p][k].name == name
  }

  /** The search of the target-conflict and reference checks: follow the continue token page by page
      and stop at the first hit. It misses nothing: a hit is reported exactly when the store has one. */
  method FindFirst<T>(pages: Pages<T>, hit: (string, T) -> bool, ghost store: map<string, T>)
    returns (found: Option<Item<T>>)
    requires Lists(pages, store)
    ensures found.Some? <==> exists n :: n in store && hit(n, store[n])
    ensures found.Some? ==> found.value.name in store && store[found.value.name] == found.value.obj
                            && hit(found.value.name, found.value.obj)
  {
    var token := 0;
    while true
      invariant 0 <= token < |pages|
      invariant forall p, k :: 0 <= p < token && 0 <= k < |pages[p]| ==> !hit(pages[p][k].name, pages[p][k].obj)
      decreases |pages| - token
    {
      var items := pages[token];
      for i := 0 to |items|
        invariant forall k :: 0 <= k < i ==> !hit(items[k].name, items[k].obj)
      {
        if hit(items[i].name, items[i].obj) {
          return Some(items[i]);
        }
      }
      if token + 1 == |pages| {
        forall n | n in store ensures !hit(n, store[n]) {
          var p, k :| At(pages, p, k) && pages[p][k].name == n;
        }
        return None;
      }
      token := token + 1;
    }
    found := None;
  }
}
