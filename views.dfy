/** Android's `View.VISIBLE` and `View.GONE`, the two visibilities the screens use. */
module Views {
  datatype Visibility = Visible | Gone
}
