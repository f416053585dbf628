/** Two concrete runs of a loader for the package `acme/agent@1.0`, with
    documents, rendered documents and errors all plain strings. */
module Scenarios {
  import opened Options
  import opened ConfigResults
  import opened PlatformProfileLoader

  /** A loader built from an interrupted result without errors materialises at
      once: the short-circuit looks at errors only, so the interrupted flag
      does not stop the materialiser, and the materialiser's errors are dropped. */
  lemma FreshInterruptedLoaderMaterializes(materialize: MaterializerCall<string> -> ConfigResult<string, string>)
    ensures var initial: ConfigResult<string, string> := ConfigResult(None, Some([]), true);
            var l := NewLoader(initial, "acme", "agent", "1.0");
            var o := Load(l, materialize);
            && l.description.id == "acme/agent"
            && l.description.title == "acme/agent@1.0"
            && o.call == Some(MaterializerCall(None, PlatformConfigMetadata("acme", "agent")))
            && o.result.errors == Some([])
  {
  }

  /** A tick that picks up a published document with an error makes every
      later load report that error without materialising. */
  lemma RefreshedErrorShortCircuits(initial: ConfigResult<string, string>,
                                    stringify: string -> string, render: string -> string,
                                    materialize: MaterializerCall<string> -> ConfigResult<string, string>)
    ensures var l := NewLoader(initial, "acme", "agent", "1.0");
            var listing := [Assistant("acme", "agent", Some(ConfigResult(Some("doc-v2"), Some(["bad field"]), false)))];
            var ticked := Tick(l, listing, stringify, render);
            && |ticked.reloads| == 1
            && Load(ticked.state, materialize) == LoadOutcome(ConfigResult(None, Some(["bad field"]), false), None)
  {
  }
}
