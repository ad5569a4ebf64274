/** HoconConfiguration.createLoader: the pass-through factory. */
module HoconConfiguration {
  import opened Wrappers
  import opened ConfigTypes
  import LoaderBuilder

  /** Builds a HOCON loader; no format knob is touched, whatever the class declares. */
  function CreateLoader(file: Option<File>, options: Option<Options>, headerMode: Option<HeaderMode>): (r: LoaderSpec)
    ensures r.file == file && r.defaultOptions == options && r.headerMode == headerMode
    ensures r.knobs == HoconKnobs
  {
    LoaderBuilder.Forward(LoaderBuilder.Builder(HoconKnobs), file, options, headerMode)
  }
}
