/** The two fleet variants and the fixed table names, column names and
    emission-factor tags each stage's main uses for them. */
module Fleets {

  datatype Fleet = Yellow | Green {

    /** The label analysis.py prints. */
    function Cab(): string
    {
      match this
      case Yellow => "YELLOW"
      case Green => "GREEN"
    }

    function RawTable(): string
    {
      match this
      case Yellow => "yellow_trips_2024"
      case Green => "green_trips_2024"
    }

    function CleanTable(): string
    {
      match this
      case Yellow => "yellow_clean"
      case Green => "green_clean"
    }

    function TransformedTable(): string
    {
      match this
      case Yellow => "yellow_transformed"
      case Green => "green_transformed"
    }

    /** Yellow trips carry `tpep_*` timestamps, green trips `lpep_*`. */
    function PickupColumn(): string
    {
      match this
      case Yellow => "tpep_pickup_datetime"
      case Green => "lpep_pickup_datetime"
    }

    function DropoffColumn(): string
    {
      match this
      case Yellow => "tpep_dropoff_datetime"
      case Green => "lpep_dropoff_datetime"
    }

    /** The `vehicle_type` key of the fleet's emission factor. */
    function VehicleType(): string
    {
      match this
      case Yellow => "yellow_taxi"
      case Green => "green_taxi"
    }
  }

  /** The order in which every stage's main processes the fleets. */
  const FleetOrder: seq<Fleet> := [Yellow, Green]

  const EmissionsTable: string := "vehicle_emissions"
}
