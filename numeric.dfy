/** The float-or-double accessor over COLLADA numeric arrays
    (collada_utils.cpp). Values are kept abstract as reals: the narrowing of
    a double to a float is not modelled. */
module Numeric {

  /** Which storage of the array is in use. */
  datatype DataType = DataTypeFloat | DataTypeDouble

  /** COLLADAFW::FloatOrDoubleArray: a type tag with a float and a double
      storage; only the storage the tag names holds the values. */
  datatype FloatOrDoubleArray = FloatOrDoubleArray(
    dataType: DataType,
    floatValues: seq<real>,
    doubleValues: seq<real>)
  {
    /** getValuesCount: the length of the storage the tag names. */
    function ValuesCount(): nat
    {
      if dataType == DataTypeFloat then |floatValues| else |doubleValues|
    }

    /** The values of the storage the tag names. */
    function Values(): seq<real>
    {
      if dataType == DataTypeFloat then floatValues else doubleValues
    }
  }

  /** bc_get_float_value: the value at `index`, or 0.0 for an index past the
      end rather than an error. */
  function GetFloatValue(values: FloatOrDoubleArray, index: nat): (r: real)
    ensures index >= |values.Values()| ==> r == 0.0
    ensures index < |values.Values()| ==> r == values.Values()[index]
    ensures values.dataType == DataTypeFloat && index < |values.floatValues| ==> r == values.floatValues[index]
    ensures values.dataType == DataTypeDouble && index < |values.doubleValues| ==> r == values.doubleValues[index]
  {
    if index >= values.ValuesCount() then 0.0
    else if values.dataType == DataTypeFloat then values.floatValues[index]
    else values.doubleValues[index]
  }
}
