/** Values of the host UI toolkit that the modelled code reads or assigns. */
module Xaml {

  /** Microsoft.UI.Xaml.Visibility. */
  datatype Visibility = Visible | Collapsed
}
